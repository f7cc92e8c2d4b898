/**
 * The string operations the generator relies on: `str.lower()` for namespaces,
 * `str.replace` for config-map keys, and the line structure of a rendered document.
 */
module Strings {

  predicate IsUpper(c: char) {
    'A' <= c <= 'Z'
  }

  /** `c.lower()` for an ASCII letter; every other character is left as it is. */
  function LowerChar(c: char): (r: char)
    ensures !IsUpper(r)
    ensures IsUpper(c) ==> r as int == c as int + 32
    ensures !IsUpper(c) ==> r == c
  {
    if IsUpper(c) then (c as int + 32) as char else c
  }

  /** `s.lower()`: the same length, every character lowered. */
  function Lower(s: string): (r: string)
    ensures |r| == |s|
    ensures forall i :: 0 <= i < |s| ==> r[i] == LowerChar(s[i])
  {
    if s == [] then [] else [LowerChar(s[0])] + Lower(s[1..])
  }

  predicate HasUpper(s: string) {
    exists i :: 0 <= i < |s| && IsUpper(s[i])
  }

  /** A lowered string has no upper-case letter left, and lowering it again changes nothing. */
  lemma LowerIsLower(s: string)
    ensures !HasUpper(Lower(s))
    ensures Lower(Lower(s)) == Lower(s)
  {
    var l := Lower(s);
    assert forall i :: 0 <= i < |l| ==> Lower(l)[i] == l[i];
  }

  /** Lowering leaves a string unchanged exactly when it has no upper-case letter. */
  lemma LowerFixedIff(s: string)
    ensures (Lower(s) == s) == !HasUpper(s)
  {
    if HasUpper(s) {
      var i :| 0 <= i < |s| && IsUpper(s[i]);
      assert Lower(s)[i] != s[i];
    } else {
      assert forall i :: 0 <= i < |s| ==> Lower(s)[i] == s[i];
    }
  }

  /** `s.replace(from, to)` for single characters: every `from` becomes `to`, nothing else moves. */
  function ReplaceChar(s: string, from: char, to: char): (r: string)
    ensures |r| == |s|
    ensures forall i :: 0 <= i < |s| ==> r[i] == if s[i] == from then to else s[i]
  {
    if s == [] then [] else [if s[0] == from then to else s[0]] + ReplaceChar(s[1..], from, to)
  }

  /** After a replacement no `from` is left, and a string without `from` is returned unchanged. */
  lemma ReplaceCharMeaning(s: string, from: char, to: char)
    requires from != to
    ensures from !in ReplaceChar(s, from, to)
    ensures from !in s ==> ReplaceChar(s, from, to) == s
  {
    var r := ReplaceChar(s, from, to);
    assert forall i :: 0 <= i < |r| ==> r[i] != from;
    if from !in s {
      assert forall i :: 0 <= i < |s| ==> r[i] == s[i];
    }
  }

  predicate SingleLine(l: string) {
    '\n' !in l
  }

  predicate AllSingleLines(lines: seq<string>) {
    forall i :: 0 <= i < |lines| ==> SingleLine(lines[i])
  }

  /** Each line followed by a line break. */
  function JoinLines(lines: seq<string>): string {
    if lines == [] then "" else lines[0] + "\n" + JoinLines(lines[1..])
  }

  /**
   * A document as the generator's triple-quoted f-strings lay it out: a line
   * break right after the opening quotes, then every line with its own break.
   */
  function Document(lines: seq<string>): string {
    "\n" + JoinLines(lines)
  }

  /** Index of the first line break in `s`, or `|s|` when there is none. */
  function LineEnd(s: string): (k: nat)
    ensures k <= |s|
    ensures k < |s| ==> s[k] == '\n'
    ensures forall i :: 0 <= i < k ==> s[i] != '\n'
  {
    if s == [] || s[0] == '\n' then 0 else 1 + LineEnd(s[1..])
  }

  /** The lines of a text: what comes before each line break, and any unterminated rest. */
  function SplitLines(s: string): seq<string>
    decreases |s|
  {
    if s == [] then []
    else
      var k := LineEnd(s);
      if k == |s| then [s] else [s[..k]] + SplitLines(s[k + 1..])
  }

  /** Splitting a joined text gives back its lines, as long as no line holds a break itself. */
  lemma {:induction false} SplitJoin(lines: seq<string>)
    requires AllSingleLines(lines)
    ensures SplitLines(JoinLines(lines)) == lines
  {
    if lines != [] {
      var s := JoinLines(lines);
      var rest := JoinLines(lines[1..]);
      assert s == lines[0] + "\n" + rest;
      assert s[|lines[0]|] == '\n';
      assert forall i :: 0 <= i < |lines[0]| ==> s[i] == lines[0][i];
      var k := LineEnd(s);
      assert k == |lines[0]|;
      assert s[..k] == lines[0];
      assert s[k + 1..] == rest;
      SplitJoin(lines[1..]);
    }
  }

  /** The lines of a rendered document are an empty first line followed by the template's lines. */
  lemma DocumentLines(lines: seq<string>)
    requires AllSingleLines(lines)
    ensures SplitLines(Document(lines)) == [""] + lines
  {
    var d := Document(lines);
    assert LineEnd(d) == 0;
    assert d[1..] == JoinLines(lines);
    SplitJoin(lines);
  }
}
