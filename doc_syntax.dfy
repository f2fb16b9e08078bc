// What both extractors recognise in the same way: a block opens with `/**`
// and an optional kind word, closes with a line starting ` */`, and the
// code after it runs up to the next opening line.
module DocSyntax {
  import opened TextUtil

  /** What `(\w*)` captures at the start of `s`. */
  function WordPrefix(s: string): string {
    if s != [] && IsWordChar(s[0]) then [s[0]] + WordPrefix(s[1..]) else []
  }

  /** The capture is the longest prefix made of word characters. */
  lemma {:induction false} WordPrefixLongest(s: string)
    ensures var r := WordPrefix(s);
            && |r| <= |s| && r == s[..|r|]
            && (forall k :: 0 <= k < |r| ==> IsWordChar(r[k]))
            && (|r| < |s| ==> !IsWordChar(s[|r|]))
  {
    if s != [] && IsWordChar(s[0]) {
      WordPrefixLongest(s[1..]);
      assert [s[0]] + s[1..][..|WordPrefix(s[1..])|] == s[..|WordPrefix(s)|];
    }
  }

  /** `kind` is what `(\w*)` captures when `line` is matched after its
      first three characters: whitespace is skipped, then the whole run of
      word characters is taken. */
  ghost predicate CapturesKind(line: string, kind: string) {
    exists n {:trigger line[n..]} :: 3 <= n <= |line| - |kind|
      && (forall k :: 3 <= k < n ==> IsSpace(line[k]))
      && (n < |line| ==> !IsSpace(line[n]))
      && line[n..][..|kind|] == kind
      && (forall k :: 0 <= k < |kind| ==> IsWordChar(kind[k]))
      && (n + |kind| < |line| ==> !IsWordChar(line[n + |kind|]))
  }

  // The search `^\/\*\*\s*(\w*)`: a line that begins with `/**` opens a
  // block, and its kind is the word that follows any whitespace. Nothing
  // is demanded of the rest of the line.
  function StartKind(line: string): (r: Option<string>)
    ensures r.Some? <==> StartsWith(line, "/**")
  {
    if StartsWith(line, "/**") then Some(WordPrefix(TrimLeft(line[3..]))) else None
  }

  /** The kind of an opening line is exactly what the regular expression
      captures: whitespace skipped, then the whole run of word characters. */
  lemma StartKindCaptures(line: string)
    requires StartsWith(line, "/**")
    ensures CapturesKind(line, StartKind(line).value)
  {
    var rest := TrimLeft(line[3..]);
    TrimLeftCuts(line[3..]);
    WordPrefixLongest(rest);
    var n := |line| - |rest|;
    assert line[n..] == rest;
  }

  // The search `^ \*\/`: a line that begins with ` */` closes a block.
  // Nothing is demanded of the rest of the line.
  predicate IsEndLine(line: string)
    ensures IsEndLine(line) ==> StartKind(line).None?
  {
    StartsWith(line, " */")
  }

  /** A body line or a closing line never opens a block: it begins with a
      space, not with `/`. */
  lemma BodyLineOpensNoBlock(line: string)
    requires line != [] && line[0] == ' '
    ensures StartKind(line).None?
  {
    if |line| >= 3 {
      assert line[..3][0] == ' ';
    }
  }

  /** The code after a block, gathered the same way by both extractors: the
      lines from `pos` up to the next start line or the end of the input,
      verbatim, and the index of the line it stopped on, which is not
      consumed. */
  function CodeSection(lines: seq<string>, pos: nat): (r: (string, nat))
    ensures pos <= r.1 && (pos <= |lines| ==> r.1 <= |lines|)
    decreases if pos <= |lines| then |lines| - pos else 0
  {
    if !Truthy(LineAt(lines, pos)) || StartKind(lines[pos]).Some? then ("", pos)
    else
      var (rest, end) := CodeSection(lines, pos + 1);
      (lines[pos] + rest, end)
  }

  /** The code run passes over non-empty lines that open no block, stops
      on the first line that opens one or at the end of the input, and is
      those lines joined, verbatim. */
  lemma {:induction false} CodeSectionText(lines: seq<string>, pos: nat)
    requires pos <= |lines|
    ensures var (code, end) := CodeSection(lines, pos);
            && (forall k :: pos <= k < end ==> lines[k] != [] && StartKind(lines[k]).None?)
            && (!Truthy(LineAt(lines, end)) || StartKind(lines[end]).Some?)
            && code == Concat(lines[pos..end])
    decreases |lines| - pos
  {
    if Truthy(LineAt(lines, pos)) && StartKind(lines[pos]).None? {
      CodeSectionText(lines, pos + 1);
      var end := CodeSection(lines, pos + 1).1;
      assert lines[pos..end][1..] == lines[pos + 1..end];
    }
  }
}
