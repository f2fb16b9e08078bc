/** Character classes, prefixes and line handling as Python's `str` and `re`
    see them, shared by both documentation extractors. */
module TextUtil {

  datatype Option<T> = None | Some(value: T)

  datatype Result<T, E> = Ok(value: T) | Err(error: E)

  /** Python truthiness of an optional line: `None` and `""` are false. */
  predicate Truthy(line: Option<string>) {
    line.Some? && line.value != []
  }

  /** The characters for which Python's `str.isspace()` holds; the regex
      class `\s` on `str` patterns uses the same set. */
  predicate IsSpace(c: char) {
    c == ' ' || ('\t' <= c <= '\r') || ('\U{1c}' <= c <= '\U{1f}')
    || c == '\U{85}' || c == '\U{a0}' || c == '\U{1680}'
    || ('\U{2000}' <= c <= '\U{200a}') || c == '\U{2028}' || c == '\U{2029}'
    || c == '\U{202f}' || c == '\U{205f}' || c == '\U{3000}'
  }

  /** The regex class `\w`, restricted to ASCII letters, digits and `_`. */
  predicate IsWordChar(c: char) {
    ('a' <= c <= 'z') || ('A' <= c <= 'Z') || ('0' <= c <= '9') || c == '_'
  }

  /** `lines[index]` as a Python list lookup, or nothing past the end. */
  function LineAt(lines: seq<string>, index: nat): (r: Option<string>)
    ensures r.Some? <==> index < |lines|
    ensures r.Some? ==> r.value == lines[index]
  {
    if index >= |lines| then None else Some(lines[index])
  }

  predicate StartsWith(s: string, prefix: string) {
    |prefix| <= |s| && s[..|prefix|] == prefix
  }

  /** What the regex `(.*)` captures: the text before the first newline. */
  function LineContent(s: string): (r: string)
    ensures |r| <= |s| && r == s[..|r|]
    ensures forall k :: 0 <= k < |r| ==> r[k] != '\n'
    ensures |r| < |s| ==> s[|r|] == '\n'
  {
    if s == [] || s[0] == '\n' then [] else [s[0]] + LineContent(s[1..])
  }

  /** `s.lstrip()` */
  function TrimLeft(s: string): string {
    if s != [] && IsSpace(s[0]) then TrimLeft(s[1..]) else s
  }

  /** `s.rstrip()` */
  function TrimRight(s: string): string {
    if s != [] && IsSpace(s[|s| - 1]) then TrimRight(s[..|s| - 1]) else s
  }

  /** `lstrip` cuts away exactly the leading whitespace. */
  lemma {:induction false} TrimLeftCuts(s: string)
    ensures var r := TrimLeft(s);
            && |r| <= |s| && r == s[|s| - |r|..]
            && (forall k :: 0 <= k < |s| - |r| ==> IsSpace(s[k]))
            && (r == [] || !IsSpace(r[0]))
  {
    if s != [] && IsSpace(s[0]) {
      var t := s[1..];
      TrimLeftCuts(t);
      var r := TrimLeft(t);
      assert TrimLeft(s) == r && s[|s| - |r|..] == t[|t| - |r|..];
      forall k | 0 <= k < |s| - |r|
        ensures IsSpace(s[k])
      {
        if k > 0 {
          assert s[k] == t[k - 1];
        }
      }
    }
  }

  /** `rstrip` cuts away exactly the trailing whitespace. */
  lemma {:induction false} TrimRightCuts(s: string)
    ensures var r := TrimRight(s);
            && |r| <= |s| && r == s[..|r|]
            && (forall k :: |r| <= k < |s| ==> IsSpace(s[k]))
            && (r == [] || !IsSpace(r[|r| - 1]))
  {
    if s != [] && IsSpace(s[|s| - 1]) {
      var t := s[..|s| - 1];
      TrimRightCuts(t);
      var r := TrimRight(t);
      assert TrimRight(s) == r && s[..|r|] == t[..|r|];
      forall k | |r| <= k < |s|
        ensures IsSpace(s[k])
      {
        if k < |t| {
          assert s[k] == t[k];
        }
      }
    }
  }

  /** `s.strip()` */
  function Strip(s: string): string {
    TrimRight(TrimLeft(s))
  }

  /** `strip` gives the longest slice of `s` that neither starts nor ends
      with whitespace, everything cut away being whitespace: the slice
      starts where the leading whitespace ends. */
  lemma StripCuts(s: string)
    ensures var r := Strip(s);
            var i := |s| - |TrimLeft(s)|;
            && 0 <= i <= |s| - |r| && r == s[i..i + |r|]
            && (forall k :: 0 <= k < i ==> IsSpace(s[k]))
            && (forall k :: i + |r| <= k < |s| ==> IsSpace(s[k]))
            && (r == [] || (!IsSpace(r[0]) && !IsSpace(r[|r| - 1])))
  {
    var left := TrimLeft(s);
    TrimLeftCuts(s);
    TrimRightCuts(left);
    var r := TrimRight(left);
    var i := |s| - |left|;
    forall k | i + |r| <= k < |s|
      ensures IsSpace(s[k])
    {
      assert s[k] == left[k - i];
    }
    if r != [] {
      assert r[0] == left[0];
    }
  }

  /** `"".join(parts)` */
  function Concat(parts: seq<string>): string {
    if parts == [] then [] else parts[0] + Concat(parts[1..])
  }

  lemma {:induction false} ConcatAppend(a: seq<string>, b: seq<string>)
    ensures Concat(a + b) == Concat(a) + Concat(b)
  {
    if a != [] {
      assert (a + b)[1..] == a[1..] + b;
      ConcatAppend(a[1..], b);
    } else {
      assert a + b == b;
    }
  }

  /** `content` is what follows `prefix` on `line`, up to the newline. */
  predicate ContentAfter(line: string, prefix: string, content: string) {
    StartsWith(line, prefix + content)
    && (forall k :: 0 <= k < |content| ==> content[k] != '\n')
    && (|prefix + content| < |line| ==> line[|prefix + content|] == '\n')
  }

  /** Whatever prefix is cut off, the rest of its line is what follows it. */
  lemma ContentAfterCut(line: string, i: nat)
    requires i <= |line|
    ensures ContentAfter(line, line[..i], LineContent(line[i..]))
  {
    var content := LineContent(line[i..]);
    assert line[..i + |content|] == line[..i] + content;
    assert |content| < |line[i..]| ==> line[i + |content|] == line[i..][|content|];
  }

  /** `prefix` put before the text of a successful result. */
  function PrefixedText<E>(prefix: string, r: Result<string, E>): Result<string, E> {
    match r
    case Ok(s) => Ok(prefix + s)
    case Err(e) => Err(e)
  }

  lemma PrefixedTextNothing<E>(r: Result<string, E>)
    ensures PrefixedText("", r) == r
  {
    match r
    case Ok(s) => assert "" + s == s;
    case Err(_) =>
  }

  lemma PrefixedTextTwice<E>(a: string, b: string, r: Result<string, E>)
    ensures PrefixedText(a, PrefixedText(b, r)) == PrefixedText(a + b, r)
  {
    match r
    case Ok(s) => assert a + (b + s) == (a + b) + s;
    case Err(_) =>
  }

  /** `PrefixedText` for a result whose text comes with a resume point:
      `prefix` goes before the text, and the resume point is kept. */
  function Prefixed<T, E>(prefix: string, r: Result<(string, T), E>): Result<(string, T), E> {
    match r
    case Ok((s, t)) => Ok((prefix + s, t))
    case Err(e) => Err(e)
  }

  lemma PrefixedNothing<T, E>(r: Result<(string, T), E>)
    ensures Prefixed("", r) == r
  {
    match r
    case Ok((s, t)) => assert "" + s == s;
    case Err(_) =>
  }

  lemma PrefixedTwice<T, E>(a: string, b: string, r: Result<(string, T), E>)
    ensures Prefixed(a, Prefixed(b, r)) == Prefixed(a + b, r)
  {
    match r
    case Ok((s, t)) => assert a + (b + s) == (a + b) + s;
    case Err(_) =>
  }

  /** Every line ends in its newline, except possibly the last. */
  predicate IsLine(line: string) {
    line != [] && forall k :: 0 <= k < |line| - 1 ==> line[k] != '\n'
  }

  /** `text.splitlines(True)`, splitting at `\n` only: the lines keep their
      newline characters. */
  function SplitLines(text: string): (lines: seq<string>)
    ensures forall k :: 0 <= k < |lines| ==>
              IsLine(lines[k]) && (k < |lines| - 1 ==> lines[k][|lines[k]| - 1] == '\n')
    decreases |text|
  {
    if text == [] then []
    else
      var content := LineContent(text);
      if |content| < |text| then [text[..|content| + 1]] + SplitLines(text[|content| + 1..])
      else [text]
  }

  /** Joining the lines gives back the text: no character is lost or added. */
  lemma {:induction false} SplitLinesJoin(text: string)
    ensures Concat(SplitLines(text)) == text
    decreases |text|
  {
    if text != [] {
      var content := LineContent(text);
      if |content| < |text| {
        var rest := text[|content| + 1..];
        var first := text[..|content| + 1];
        SplitLinesJoin(rest);
        var lines := SplitLines(text);
        assert lines == [first] + SplitLines(rest);
        assert lines[0] == first && lines[1..] == SplitLines(rest);
        assert Concat(lines) == first + Concat(SplitLines(rest));
        assert text == first + rest;
      }
    }
  }
}
