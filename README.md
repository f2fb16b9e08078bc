# microcompute documentation extractors and helpers, in Dafny

This project models two parts of the microcompute repository and proves
properties about them.

The first part is the two scripts that turn specially marked comment blocks
in C sources into Markdown.

- `doc_generator.py` is the strict extractor. A line that starts with `/**`
  opens a block, and the word after the marker is the block's kind. Body
  lines must start with ` *`, and a line starting with ` */` closes the
  block. A `code` block is rendered as a fenced copy of the code after it,
  followed by its text as a quotation. A block of the empty kind is
  rendered as plain text. Any other kind, a malformed body line and an
  unterminated block all stop the extraction with an error.
- `mini_doc_gen.py` is the short extractor. It uses the same start and end
  markers, but it takes body lines leniently and ends an unterminated block
  quietly at the end of the input. Its kinds are `code` and `text`, and it
  renders each differently.

The second part is the C library's selection rules and guards:

- how it chooses a physical device, a queue family and a memory type;
- how it initialises, writes and reads a host-mapped buffer;
- the bounds guards of a program's nth-buffer accessors;
- the guard on the dispatch grid;
- the enum-to-name tables;
- the aligned cursor buffer behind the Lua bindings.

## Layout

- `text_util.dfy` (`TextUtil`) holds what the scripts take from Python:
  `Option`/`Result`, `str.isspace`, the `\w` class, `splitlines(True)`,
  `strip`, and what `(.*)` captures.
- `doc_syntax.dfy` (`DocSyntax`) holds what both scripts share:
  - the start-line regex `^\/\*\*\s*(\w*)` and the end-line regex `^ \*\/`;
  - the run of code lines after a block.
- `doc_generator.dfy` (`DocGenerator`) models the strict extractor:
  - the `Lines` cursor, as a class;
  - specification functions: `DocSection`, `OpenBlock`, `Scan`, `Render`;
  - methods that mirror the script's `while` loops, proved equal to those functions;
  - lemmas about what is accepted and what is produced.
- `mini_doc_gen.py` is modelled in `mini_doc_gen.dfy` (`MiniDocGen`):
  - the `T` cursor, as a class;
  - specification functions: `DIter`, `Block`, `TIter`;
  - methods for the generators `d_iter`, `s_iter` and `t_iter`;
  - lemmas comparing the two extractors.
- `microcompute.dfy` (`Microcompute`) models `microcompute.h`:
  - the choice methods;
  - the `Buffer` and `Program` classes;
  - the transfer and dispatch guards;
  - `mc_debug_level_to_str`.
- `microcompute_lua.dfy` (`MicrocomputeLua`) holds `calc_offset` and the
  `Databuff` class.
- `misc.dfy` (`Misc`) holds `mc_log_level_to_str` and `mc_device_type_to_str`.

Where the Vulkan driver answers a query, the answer is a parameter. For
example, the buffer constructor takes the device's memory types and heaps,
and whether buffer creation and allocation succeed.

Behaviour of the code worth noting:

- A start line needs only to begin with `/**`. Whitespace may come before
  the kind word, and anything may follow it.
- A closing line needs only to begin with ` */`.
- `next()` past the end returns nothing and still advances the cursor. It
  does not fail.
- An unknown kind fails as soon as its start line is read, before the body.
  So an unterminated `/**bogus` block reports the kind, not the missing end.
- A malformed body line is reported with its last character removed, even
  when that character is not a newline.
- Lines outside any block are passed over, not consumed into a block. This
  includes the closing line of an empty-kind block, which the main loop
  then reads.
- The two extractors frame a `code` block differently. `doc_generator.py`
  puts the fenced code first, then the text with each line prefixed `> `,
  then `<br/>`. `mini_doc_gen.py` starts with a newline, puts the fenced code
  and a blank line first, then the unprefixed text, then a `----` rule.

## Model

| member | source | states |
|---|---|---|
| TextUtil.LineAt | doc_generator.py:10-12 | a line is returned exactly for an index below the line count, and it is that line; past the end nothing is returned |
| TextUtil.SplitLines | doc_generator.py:8 | every line is non-empty, and every line but the last ends in its newline and holds no other |
| TextUtil.SplitLinesJoin | doc_generator.py:8 | joining the lines gives back the input text exactly |
| TextUtil.LineContent | doc_generator.py:28-29 | the `(.*)` capture is the prefix of the text before its first newline |
| TextUtil.TrimLeftCuts | doc_generator.py:62 | `lstrip` removes exactly the leading whitespace: what it removes is whitespace and what is left does not start with any |
| TextUtil.TrimRightCuts | doc_generator.py:62 | `rstrip` removes exactly the trailing whitespace |
| TextUtil.StripCuts | doc_generator.py:62 | `strip` leaves the slice of the input that starts where its leading whitespace ends; the slice neither starts nor ends with whitespace, and everything cut on either side is whitespace |
| DocSyntax.WordPrefixLongest | doc_generator.py:22 | the `(\w*)` capture is the longest prefix of word characters |
| DocSyntax.StartKind | doc_generator.py:21-22 | a line opens a block exactly when it begins with `/**` |
| DocSyntax.StartKindCaptures | doc_generator.py:21-22 | the kind is what `(\w*)` captures after the marker and any whitespace |
| DocSyntax.IsEndLine | doc_generator.py:24-25 | a closing line never opens a block |
| DocSyntax.BodyLineOpensNoBlock | doc_generator.py:21-25 | a line that starts with a space, as body and closing lines do, never opens a block |
| DocSyntax.CodeSection | doc_generator.py:42-49 | the code run starts at the cursor and stops within the input |
| DocSyntax.CodeSectionText | doc_generator.py:42-49 | the code run covers the non-empty lines that open no block, stops at the end of the input or at the next start line without consuming it, and is those lines joined verbatim |
| DocGenerator.Lines.constructor | doc_generator.py:6-8 | the cursor starts at 0 over the `splitlines(True)` lines of the text |
| DocGenerator.Lines.Peek | doc_generator.py:18-19 | the line under the cursor, or nothing past the end, and the cursor does not move |
| DocGenerator.Lines.Next | doc_generator.py:14-16 | the cursor moves on by one even past the end, and the line that was under it is returned |
| DocGenerator.ParseDocLine | doc_generator.py:27-30 | a body line is accepted exactly when it starts with ` *`; otherwise the error carries the line without its last character |
| DocGenerator.ParseDocLineText | doc_generator.py:27-29 | an accepted line gives the text after ` * ` (or after ` *` when no space follows) up to its newline, then a newline |
| DocGenerator.DocSection | doc_generator.py:32-40 | a successful body stops on a closing line inside the input |
| DocGenerator.DocSectionSucceeds | doc_generator.py:32-40 | a body succeeds exactly when a closing line follows with only ` *` lines before it |
| DocGenerator.DocSectionBody | doc_generator.py:34-38 | every line before the closing line of a successful body is a body line, so the first closing line ends it |
| DocGenerator.DocSectionText | doc_generator.py:32-40 | the body text is each line's normalised text, each preceded by the prefix, in order |
| DocGenerator.DocSectionUnterminated | doc_generator.py:36 | "unexpected EOF" is raised exactly when every remaining line is a body line that does not close the block |
| DocGenerator.DocSectionMalformed | doc_generator.py:30 | any other failure comes from a line, after only body lines, that does not start with ` *` |
| DocGenerator.ParseDocSection | doc_generator.py:32-40 | the loop yields the body text of `DocSection` and leaves the cursor on the closing line, or fails with its error |
| DocGenerator.ParseCodeSection | doc_generator.py:42-49 | the loop yields the code run and leaves the cursor on the line that stopped it |
| DocGenerator.OpenBlock | doc_generator.py:56-69 | a block that opens without error resumes the scan strictly later and within the input |
| DocGenerator.OpenBlockSpan | doc_generator.py:56-69 | a `code` block yields a code section and an empty-kind block a text section, and no line the block spans opens another block |
| DocGenerator.Scan | doc_generator.py:52-71 | every block found spans at least one line, so a successful scan finds no more blocks than there are lines left |
| DocGenerator.ScanOtherLine | doc_generator.py:55-56 | a line that opens no block adds nothing to the output |
| DocGenerator.ScanBlockFails | doc_generator.py:59-67 | a failing body of a `code` or empty-kind block fails the whole extraction with that error |
| DocGenerator.ScanUnknownKind | doc_generator.py:69 | any kind other than `code` and the empty one fails the extraction with that kind |
| DocGenerator.ScanBlock | doc_generator.py:55-69 | a block that opens without error puts its rendering ahead of the output from where it ends |
| DocGenerator.ScanCodeBlock | doc_generator.py:59-63 | a `code` block renders as the fenced, stripped code run that starts after its closing line, then its text with each line prefixed `> `, then the `<br/>` separator, ahead of the output from where the code run stops |
| DocGenerator.ScanTextBlock | doc_generator.py:65-67 | an empty-kind block renders as its text, ahead of the output from its closing line on |
| DocGenerator.NextRendering | doc_generator.py:55-69 | one turn of the loop either ends the output with its result (the end of the input or the first error) or adds this line's rendering ahead of the output from the new cursor |
| DocGenerator.GenerateDocs | doc_generator.py:52-71 | the loop yields the rendering of every block in order, or the first error met |
| DocGenerator.OneSectionPerStartLine | doc_generator.py:52-71 | on success there is one section per start line, and as many code sections and text sections as there are `code` and empty-kind start lines |
| MiniDocGen.T.constructor | mini_doc_gen.py:4 | the cursor starts at 0 over the `splitlines(True)` lines |
| MiniDocGen.T.Peek | mini_doc_gen.py:5-6 | the line under the cursor, or nothing past the end |
| MiniDocGen.T.Next | mini_doc_gen.py:7 | the cursor moves on by one even past the end, and the line that was under it is returned |
| MiniDocGen.DEnd | mini_doc_gen.py:10 | the end of the input ends a block, and a ` * ` body line never does |
| MiniDocGen.MarkerLength | mini_doc_gen.py:11 | the marker taken is one that ` ?\*? ?` matches: an optional space, then an optional star, then an optional space, at most three characters |
| MiniDocGen.MarkerLengthLongest | mini_doc_gen.py:11 | each optional part is taken whenever the next character matches it, so no longer prefix of the line is a marker |
| MiniDocGen.DLine | mini_doc_gen.py:11 | every line is accepted, and the result ends in a newline |
| MiniDocGen.DLineDropsMarker | mini_doc_gen.py:11 | the text kept is exactly what follows the longest marker, up to the line's newline |
| MiniDocGen.DIter | mini_doc_gen.py:10-14 | the body runs to the first missing, empty or closing line, which is consumed, and no earlier line ends it |
| MiniDocGen.DIterText | mini_doc_gen.py:13-14 | the body text is the lenient text of exactly the lines between the start line and the line that ended the block, in order |
| MiniDocGen.JoinDIter | mini_doc_gen.py:13-14 | the loop yields the body text of `DIter` and leaves the cursor where it does |
| MiniDocGen.JoinSIter | mini_doc_gen.py:16-17 | the loop yields the same code run as the strict extractor and leaves the cursor on the line that stopped it |
| MiniDocGen.Block | mini_doc_gen.py:22-27 | only `code` and `text` blocks succeed, resuming later; any other kind fails with `unknown doc type found: ` and the kind |
| MiniDocGen.JoinBlock | mini_doc_gen.py:22-27 | the match yields the piece and resume point of `Block`, or its error |
| MiniDocGen.TIter | mini_doc_gen.py:19-27 | the output can fail only with an error whose message starts `unknown doc type found: ` |
| MiniDocGen.TIterEnd | mini_doc_gen.py:20 | a missing or empty line ends the output |
| MiniDocGen.TIterOtherLine | mini_doc_gen.py:21 | a line that opens no block adds nothing |
| MiniDocGen.TIterBlock | mini_doc_gen.py:23-26 | a block's piece comes ahead of the output from where the block ends |
| MiniDocGen.TIterCodeBlock | mini_doc_gen.py:23-25 | a `code` block yields a newline, the stripped code run after its body in a C fence, a blank line, its body and a `----` rule, ahead of the output from where the code run stops |
| MiniDocGen.TIterTextBlock | mini_doc_gen.py:26 | a `text` block yields a newline and its body, ahead of the output from just after the line that ended it |
| MiniDocGen.TIterUnknownKind | mini_doc_gen.py:27 | a block of an unknown kind ends the output with its error |
| MiniDocGen.NextPiece | mini_doc_gen.py:20-27 | one turn of the loop either ends the output with its result or adds a piece ahead of the output from the new cursor |
| MiniDocGen.JoinTIter | mini_doc_gen.py:19-27 | the loop yields every piece joined, or the first error |
| MiniDocGen.TIterFailsOnUnknownKind | mini_doc_gen.py:27 | the output fails only on a start line whose kind is neither `code` nor `text`, and the error names that kind |
| MiniDocGen.DLineAgreesWithStrict | mini_doc_gen.py:11 | on every body line the strict extractor accepts, the lenient one takes the same text |
| MiniDocGen.DLineKeepsUnmarkedLine | mini_doc_gen.py:11 | a line with no leading marker, which the strict extractor refuses, is kept whole up to its newline |
| MiniDocGen.DIterAgreesWithStrict | mini_doc_gen.py:13-14 | where the strict extractor gathers an unprefixed body (the empty-kind block's), the lenient one gathers the same text and also consumes the closing line |
| MiniDocGen.DIterUnterminated | mini_doc_gen.py:10 | a body runs past the end of the input exactly when no closing line follows |
| MiniDocGen.UnterminatedBlockEndsQuietly | mini_doc_gen.py:10 | where the strict extractor reports "unexpected EOF", the lenient one ends the block at the end of the input |
| MiniDocGen.EmptyKindRefused | mini_doc_gen.py:22-27 | a bare `/**` block fails here with an empty kind, while the strict extractor renders it as empty text |
| MiniDocGen.TextStartLine | mini_doc_gen.py:9 | the kind of `/** text` is `text` |
| MiniDocGen.TextBodyGathered | mini_doc_gen.py:13-14 | the body ` * Hi` is gathered as `Hi` and a newline, and its closing line is consumed |
| MiniDocGen.TextBlockPiece | mini_doc_gen.py:26 | that `text` block yields a newline and `Hi`, and the output resumes after its closing line |
| MiniDocGen.TextKindAccepted | mini_doc_gen.py:26 | a one-line `text` block renders as a newline followed by its text |
| MiniDocGen.TextKindRefusedByStrict | doc_generator.py:69 | the strict extractor refuses that same `text` block as an unknown kind |
| Microcompute.LastWhere | microcompute.h:194-199 | the scan's result is the last index whose element matches, or none when no element does |
| Microcompute.LastWhereExtend | microcompute.h:194-199 | one more scanned element becomes the answer exactly when it matches |
| Microcompute.ChoosePhysicalDeviceIndex | microcompute.h:187-212 | the two passes over the devices choose the preferred device |
| Microcompute.PreferredDeviceChoice | microcompute.h:187-212 | the last discrete GPU is chosen if there is one; otherwise the last integrated GPU; otherwise the count, meaning none |
| Microcompute.ChooseQueueFamilyIndex | microcompute.h:214-237 | the two passes over the queue families choose the preferred family |
| Microcompute.PreferredQueueFamilyComputes | microcompute.h:214-237 | the chosen family can compute; none is chosen exactly when no family can; a compute-only family wins over a shared one |
| Microcompute.ChooseMemoryType | microcompute.h:239-253 | the first memory type that is host-visible and host-coherent in a heap larger than the size, or the count when none is |
| Microcompute.Buffer.constructor | microcompute.h:255-367 | the size grows to the driver's requirement once the buffer is created, and the buffer is initialised exactly when creation succeeds, a suitable memory type exists and allocation succeeds |
| Microcompute.Buffer.Write | microcompute.h:388-416 | with the intended bounds guard, the data lands at the offset and nothing else changes, or nothing changes and 0 is returned |
| Microcompute.Buffer.Read | microcompute.h:418-446 | with the intended bounds guard, the requested bytes from the offset are copied out, or nothing is copied and 0 is returned |
| Microcompute.TransferResultAsWritten | microcompute.h:394-415 | as written, an initialised buffer reports every transfer as done in full, whatever its offset and the buffer's size; an uninitialised one reports 0 |
| Microcompute.TransferAsWrittenOverruns | microcompute.h:404-415 | as written, a 4-byte transfer at offset 2 of a 4-byte buffer is reported as done |
| Microcompute.TransferStaysInBounds | microcompute.h:388-446 | the intended guard never reports a transfer past the end, and it agrees with the written guard on every in-bounds request |
| Microcompute.Program.NthBufferGetSize | microcompute.h:1117-1128 | the nth buffer's size, or 0 when there is no nth buffer |
| Microcompute.Program.NthBufferWrite | microcompute.h:1130-1147 | 0 with no memory touched when there is no nth buffer; otherwise the buffer write's result |
| Microcompute.Program.NthBufferRead | microcompute.h:1149-1166 | 0 with nothing copied when there is no nth buffer; otherwise the buffer read's result |
| Microcompute.MulU32 | microcompute.h:1175 | a 32-bit product stays below 2^32 |
| Microcompute.DispatchRefusedAsWritten | microcompute.h:1175 | as written, a grid is refused exactly when the product of its dimensions is a multiple of 2^32 |
| Microcompute.DispatchRefusesEmptyGrids | microcompute.h:1168-1183 | the intended guard refuses exactly the grids with a zero dimension, and the written guard refuses those too |
| Microcompute.DispatchAsWrittenRefusesFullGrid | microcompute.h:1175 | as written, a 65536 x 65536 x 1 grid is refused because its 32-bit product wraps to 0 |
| Microcompute.DebugLevelToStr | microcompute.h:448-456 | the name always starts `MC_DEBUG_LEVEL_`, and it is `MC_DEBUG_LEVEL_UNKNOWN` exactly for values outside the four levels |
| Microcompute.DebugLevelNamesDistinct | microcompute.h:448-456 | distinct levels get distinct names |
| MicrocomputeLua.CalcOffset | microcompute_lua.c:22-24 | the offset is less than the alignment |
| MicrocomputeLua.CalcOffsetAligns | microcompute_lua.c:22-24 | adding the offset reaches a multiple of the alignment, and the offset is 0 exactly when the position already is one |
| MicrocomputeLua.AlignedSlotIsNextMultiple | microcompute_lua.c:22-24 | the position plus the offset is the first multiple of the alignment at or after the position |
| MicrocomputeLua.Databuff.constructor | microcompute_lua.c:34-41 | `size` slots, all zero, and the cursor at 0 |
| MicrocomputeLua.Databuff.Read | microcompute_lua.c:43-46 | the value in the next aligned slot, with the cursor left just past it |
| MicrocomputeLua.Databuff.Write | microcompute_lua.c:48-51 | the value goes into the next aligned slot and no other slot changes, with the cursor left just past it |
| Misc.LogLevelToStr | src/misc.c:40-48 | the name always starts `MC_LOG_LEVEL_`, and it is `MC_LOG_LEVEL_UNKNOWN` exactly for values outside the four levels |
| Misc.LogLevelNamesDistinct | src/misc.c:40-48 | distinct levels get distinct names |
| Misc.DeviceTypeToStr | src/misc.c:50-58 | the name always starts `MC_DEVICE_TYPE_`, and it is `MC_DEVICE_TYPE_OTHER` exactly for values outside the four known types |
| Misc.DeviceTypeNamesDistinct | src/misc.c:50-58 | distinct known types get distinct names |

## Left out

- `splitlines(True)` splits only at `\n`. Python also splits at `\r`, `\r\n` and other line boundaries; these are not modelled.
- `\w` is ASCII letters, digits and `_`. Python's Unicode word characters are not modelled.
- Command-line handling and file I/O are not modelled: reading the input and writing or printing the output (`doc_generator.py:74-79`, `mini_doc_gen.py:29-30`).
- `mini_doc_gen.py` produces its output through generators; the model builds the whole result.
- `doc_generator.py` raises bare strings, which Python 3 turns into a `TypeError`. The model returns a typed `Error` holding the intended message.
- `parse_code_section` reads the module-level `lines`, not its parameter. The script passes the same object, so the model passes the cursor.
- Debug messages sent to the state's callback on each failure path are not modelled.
- Vulkan calls are replaced by their results, given as parameters:
  - device and queue-family properties, memory types and heaps;
  - whether buffer creation and allocation succeed.
- The ignored results of `vkMapMemory` and `vkBindBufferMemory` are not modelled. An initialised buffer is assumed mapped.
- `mc_buffer_finalize`, `databuff_destroy` and the rest of `mc_program_dispatch` after its guard (command recording and submission) are not modelled.
- The `lmc_*` Lua wrappers are not modelled.
- Floats in a `Databuff` are kept as 32-bit patterns, since they are only stored and loaded.
- 64-bit sizes and offsets and the `int` cursor of `Databuff` are unbounded here. Only the dispatch guard's 32-bit product is modelled with wrap-around.
- Microcompute.Buffer.Write: models the bounds guard that the message describes. As written, the guard lets a copy run past the end of the mapping. That copy is undefined behaviour in C, so it appears only as `TransferResultAsWritten` (see Findings).
- Microcompute.Buffer.Read: same as `Write`.
- MicrocomputeLua.Databuff.Read: requires the next aligned slot to exist. The C code does not check, and reading past the end is undefined behaviour.
- MicrocomputeLua.Databuff.Write: same as `Read`; the C code would write past the end.
- MicrocomputeLua.CalcOffset: defined for a positive alignment and a non-negative position only. A zero alignment divides by zero in C. Negative values never arise from the cursor.

## Findings

| source | as written | input that shows it | evidently intended | confidence | as-written member | corrected member |
|---|---|---|---|---|---|---|
| microcompute.h:404-415 (and 434-445) | the second guard of `mc_buffer_write` and `mc_buffer_read` tests `!self.isInitialized` again, so any offset and size on an initialised buffer is copied | a 4-byte buffer, offset 2, size 4: reported as 4 bytes done, copying 2 bytes past the end | refuse when `offset + size > size of the buffer`, as the guard's message says | not executed | Microcompute.TransferAsWrittenOverruns | Microcompute.TransferStaysInBounds |
| microcompute.h:1175 | `x * y * z == 0` is computed in `uint32_t` and wraps | x = 65536, y = 65536, z = 1: the product wraps to 0 and a full grid is refused | refuse only when some dimension is 0, as the message says | not executed | Microcompute.DispatchAsWrittenRefusesFullGrid | Microcompute.DispatchRefusesEmptyGrids |
