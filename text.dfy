/**
 * The few JavaScript string operations the core relies on, written over
 * `seq<char>`: `startsWith`, `endsWith`, `includes`, `indexOf`,
 * `replace` with a string pattern (first occurrence only), `trim` and
 * `split('\n')`.
 */
module Text {

  datatype Option<+T> = None | Some(value: T)

  predicate StartsWith(s: string, prefix: string) {
    |prefix| <= |s| && s[..|prefix|] == prefix
  }

  predicate EndsWith(s: string, suffix: string) {
    |suffix| <= |s| && s[|s| - |suffix|..] == suffix
  }

  /** `pat` occurs in `s` starting at index `i`. */
  predicate OccursAt(s: string, pat: string, i: int) {
    0 <= i && i + |pat| <= |s| && s[i..i + |pat|] == pat
  }

  /** JavaScript `s.indexOf(pat, from)`, with `None` for -1. */
  function IndexFrom(s: string, pat: string, from: nat): Option<nat>
    requires from <= |s|
    decreases |s| - from
  {
    if from + |pat| > |s| then None
    else if s[from..from + |pat|] == pat then Some(from)
    else if from == |s| then None
    else IndexFrom(s, pat, from + 1)
  }

  /** The search from `from` finds the first occurrence at or after `from`, and fails only when there is none. */
  lemma {:induction false} IndexFromFirst(s: string, pat: string, from: nat)
    requires from <= |s|
    ensures IndexFrom(s, pat, from).Some? ==>
      var i := IndexFrom(s, pat, from).value;
      from <= i && OccursAt(s, pat, i) && forall j :: from <= j < i ==> !OccursAt(s, pat, j)
    ensures IndexFrom(s, pat, from).None? ==> forall j :: from <= j <= |s| ==> !OccursAt(s, pat, j)
    decreases |s| - from
  {
    if from + |pat| <= |s| && s[from..from + |pat|] != pat && from < |s| {
      IndexFromFirst(s, pat, from + 1);
    }
  }

  /** JavaScript `s.indexOf(pat)`: the first occurrence, if any. */
  function IndexOf(s: string, pat: string): Option<nat> {
    IndexFrom(s, pat, 0)
  }

  /** `indexOf` gives the first occurrence, and -1 only when there is none. */
  lemma IndexOfFirst(s: string, pat: string)
    ensures IndexOf(s, pat).Some? ==>
      OccursAt(s, pat, IndexOf(s, pat).value) && forall j :: 0 <= j < IndexOf(s, pat).value ==> !OccursAt(s, pat, j)
    ensures IndexOf(s, pat).None? ==> forall j :: 0 <= j <= |s| ==> !OccursAt(s, pat, j)
  {
    IndexFromFirst(s, pat, 0);
  }

  /** JavaScript `s.includes(pat)`. */
  predicate Contains(s: string, pat: string) {
    IndexOf(s, pat).Some?
  }

  lemma ContainsIff(s: string, pat: string)
    ensures Contains(s, pat) <==> exists i :: OccursAt(s, pat, i)
  {
    IndexOfFirst(s, pat);
    if !Contains(s, pat) {
      forall i | OccursAt(s, pat, i) ensures false {
      }
    }
  }

  /**
   * JavaScript `s.replace(pat, rep)` with a string pattern: only the first
   * occurrence is replaced; without an occurrence `s` is returned.
   */
  function ReplaceFirst(s: string, pat: string, rep: string): string {
    IndexOfFirst(s, pat);
    match IndexOf(s, pat)
    case None => s
    case Some(i) => s[..i] + rep + s[i + |pat|..]
  }

  /** The replacement acts on the first occurrence of the pattern, and does nothing without one. */
  lemma ReplaceFirstMeaning(s: string, pat: string, rep: string)
    ensures !Contains(s, pat) ==> ReplaceFirst(s, pat, rep) == s
    ensures Contains(s, pat) ==>
      exists i :: OccursAt(s, pat, i) && (forall j :: 0 <= j < i ==> !OccursAt(s, pat, j))
                  && ReplaceFirst(s, pat, rep) == s[..i] + rep + s[i + |pat|..]
  {
    IndexOfFirst(s, pat);
  }

  /**
   * The characters JavaScript's `trim` removes: the ECMAScript WhiteSpace
   * and LineTerminator code points.
   */
  predicate IsSpace(c: char) {
    c == '\t' || c == '\n' || c == '\U{000B}' || c == '\U{000C}' || c == '\r' || c == ' '
    || c == '\U{00A0}' || c == '\U{1680}' || ('\U{2000}' <= c <= '\U{200A}')
    || c == '\U{2028}' || c == '\U{2029}' || c == '\U{202F}' || c == '\U{205F}'
    || c == '\U{3000}' || c == '\U{FEFF}'
  }

  predicate AllSpace(s: string) {
    forall i :: 0 <= i < |s| ==> IsSpace(s[i])
  }

  /** What remains once the white space at the front of `s` is removed. */
  function TrimStart(s: string): (r: string)
    ensures |r| <= |s| && r == s[|s| - |r|..]
    ensures forall i :: 0 <= i < |s| - |r| ==> IsSpace(s[i])
    ensures r == [] || !IsSpace(r[0])
  {
    if s == [] || !IsSpace(s[0]) then s
    else TrimStart(s[1..])
  }

  /** What remains once the white space at the end of `s` is removed. */
  function TrimEnd(s: string): (r: string)
    ensures |r| <= |s| && r == s[..|r|]
    ensures forall i :: |r| <= i < |s| ==> IsSpace(s[i])
    ensures r == [] || !IsSpace(r[|r| - 1])
  {
    if s == [] || !IsSpace(s[|s| - 1]) then s
    else TrimEnd(s[..|s| - 1])
  }

  /**
   * JavaScript `s.trim()`: what remains of `s` once the white space at both
   * ends is removed. `TrimStart` describes the front; the end cut here is
   * white space only.
   */
  function Trim(s: string): (r: string)
    ensures |r| <= |TrimStart(s)| && r == TrimStart(s)[..|r|]
    ensures forall i :: |r| <= i < |TrimStart(s)| ==> IsSpace(TrimStart(s)[i])
    ensures r == [] || (!IsSpace(r[0]) && !IsSpace(r[|r| - 1]))
  {
    TrimEnd(TrimStart(s))
  }

  /** Trimming leaves nothing exactly when the text is all white space. */
  lemma TrimEmptyIff(s: string)
    ensures Trim(s) == [] <==> AllSpace(s)
  {
    var t := TrimStart(s);
    if Trim(s) == [] {
      forall i | 0 <= i < |s| ensures IsSpace(s[i]) {
        if i >= |s| - |t| {
          assert s[i] == t[i - (|s| - |t|)];
        }
      }
    }
  }

  /** What `indexOf('\n')` tells about the line breaks of `s`. */
  lemma FirstNewline(s: string)
    ensures IndexOf(s, "\n").None? ==> '\n' !in s
    ensures IndexOf(s, "\n").Some? ==>
      var i := IndexOf(s, "\n").value;
      i < |s| && s[i] == '\n' && '\n' !in s[..i]
  {
    IndexOfFirst(s, "\n");
    match IndexOf(s, "\n")
    case None =>
      forall j | 0 <= j < |s| ensures s[j] != '\n' { assert !OccursAt(s, "\n", j); }
    case Some(i) =>
      assert s[i..i + 1] == "\n";
      forall j | 0 <= j < i ensures s[..i][j] != '\n' { assert !OccursAt(s, "\n", j); }
  }

  /** JavaScript `s.split('\n')`: always at least one piece. */
  function Lines(s: string): (r: seq<string>)
    ensures |r| >= 1
    ensures forall k :: 0 <= k < |r| ==> '\n' !in r[k]
    decreases |s|
  {
    FirstNewline(s);
    match IndexOf(s, "\n")
    case None => [s]
    case Some(i) => [s[..i]] + Lines(s[i + 1..])
  }

  /** The inverse of `Lines`: the pieces joined by `\n`. */
  function JoinLines(lines: seq<string>): string
    requires |lines| >= 1
  {
    if |lines| == 1 then lines[0] else lines[0] + "\n" + JoinLines(lines[1..])
  }

  function CountChar(s: string, c: char): nat {
    if s == [] then 0 else (if s[0] == c then 1 else 0) + CountChar(s[1..], c)
  }

  lemma {:induction false} CountCharAppend(a: string, b: string, c: char)
    ensures CountChar(a + b, c) == CountChar(a, c) + CountChar(b, c)
  {
    if a == [] {
      assert a + b == b;
    } else {
      assert (a + b)[1..] == a[1..] + b;
      CountCharAppend(a[1..], b, c);
    }
  }

  lemma {:induction false} CountCharAbsent(s: string, c: char)
    requires c !in s
    ensures CountChar(s, c) == 0
  {
    if s != [] {
      assert s[0] != c;
      CountCharAbsent(s[1..], c);
    }
  }

  /** A `c` at index `i` splits the count in two. */
  lemma CountCharAt(s: string, i: nat, c: char)
    requires i < |s| && s[i] == c
    ensures CountChar(s, c) == CountChar(s[..i], c) + 1 + CountChar(s[i + 1..], c)
  {
    assert s == s[..i] + ([c] + s[i + 1..]);
    assert ([c] + s[i + 1..])[1..] == s[i + 1..];
    CountCharAppend(s[..i], [c] + s[i + 1..], c);
  }

  /** A text is what precedes index `i`, the character there, and what follows it. */
  lemma SplitAt(s: string, i: nat)
    requires i < |s|
    ensures s[..i] + [s[i]] + s[i + 1..] == s
  {
  }

  /** Splitting then joining on `\n` gives back the text. */
  lemma {:induction false} JoinLinesSplit(s: string)
    ensures JoinLines(Lines(s)) == s
    decreases |s|
  {
    FirstNewline(s);
    match IndexOf(s, "\n")
    case None =>
    case Some(i) =>
      var rest := Lines(s[i + 1..]);
      JoinLinesSplit(s[i + 1..]);
      assert Lines(s) == [s[..i]] + rest;
      assert Lines(s)[1..] == rest;
      assert JoinLines(Lines(s)) == s[..i] + "\n" + JoinLines(rest);
      SplitAt(s, i);
  }

  /** There is one more line than there are `\n` characters. */
  lemma {:induction false} LinesCount(s: string)
    ensures |Lines(s)| == CountChar(s, '\n') + 1
    decreases |s|
  {
    FirstNewline(s);
    match IndexOf(s, "\n")
    case None =>
      CountCharAbsent(s, '\n');
    case Some(i) =>
      LinesCount(s[i + 1..]);
      CountCharAbsent(s[..i], '\n');
      CountCharAt(s, i, '\n');
  }
}
