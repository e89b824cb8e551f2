/** ASCII text helpers and the two wrappers every other module uses. A string
    is the sequence of its characters; only ASCII letters have a case and only
    ASCII white space is trimmed. */
module Text {

  datatype Option<+T> = None | Some(value: T)

  datatype Result<+T, +E> = Ok(value: T) | Err(error: E)

  predicate IsSpace(c: char) {
    c == ' ' || '\t' <= c <= '\r'
  }

  predicate IsDigit(c: char) {
    '0' <= c <= '9'
  }

  predicate IsLower(c: char) {
    'a' <= c <= 'z'
  }

  predicate IsUpper(c: char) {
    'A' <= c <= 'Z'
  }

  function UpperChar(c: char): char {
    if IsLower(c) then (c as int - 32) as char else c
  }

  function LowerChar(c: char): char {
    if IsUpper(c) then (c as int + 32) as char else c
  }

  function Upper(s: string): string {
    seq(|s|, i requires 0 <= i < |s| => UpperChar(s[i]))
  }

  function Lower(s: string): string {
    seq(|s|, i requires 0 <= i < |s| => LowerChar(s[i]))
  }

  function TrimLeft(s: string): string {
    if s != "" && IsSpace(s[0]) then TrimLeft(s[1..]) else s
  }

  function TrimRight(s: string): string {
    if s != "" && IsSpace(s[|s| - 1]) then TrimRight(s[..|s| - 1]) else s
  }

  function Trim(s: string): string {
    TrimRight(TrimLeft(s))
  }

  /** Nothing left for Trim to take off. */
  predicate Trimmed(s: string) {
    s == "" || (!IsSpace(s[0]) && !IsSpace(s[|s| - 1]))
  }

  lemma {:induction false} TrimLeftStops(s: string)
    ensures TrimLeft(s) == "" || !IsSpace(TrimLeft(s)[0])
  {
    if s != "" && IsSpace(s[0]) {
      TrimLeftStops(s[1..]);
    }
  }

  lemma {:induction false} TrimRightStops(s: string)
    ensures TrimRight(s) <= s
    ensures TrimRight(s) == "" || !IsSpace(TrimRight(s)[|TrimRight(s)| - 1])
  {
    if s != "" && IsSpace(s[|s| - 1]) {
      TrimRightStops(s[..|s| - 1]);
    }
  }

  lemma TrimIsTrimmed(s: string)
    ensures Trimmed(Trim(s)) && Trim(Trim(s)) == Trim(s)
  {
    TrimLeftStops(s);
    TrimRightStops(TrimLeft(s));
  }

  // ---- what trimming and case are, said without them ----

  /** White space: tab to carriage return, and the space. */
  predicate Blank(s: string) {
    forall i :: 0 <= i < |s| ==> s[i] as int == 32 || 9 <= s[i] as int <= 13
  }

  /** The text between the blanks at both ends. */
  predicate Between(s: string, left: string, body: string, right: string) {
    && s == left + body + right && Blank(left) && Blank(right)
    && (body != "" ==> !Blank([body[0]]) && !Blank([body[|body| - 1]]))
  }

  lemma {:induction false} TrimLeftCuts(s: string) returns (left: string)
    ensures s == left + TrimLeft(s) && Blank(left)
  {
    left := "";
    if s != "" && IsSpace(s[0]) {
      var rest := TrimLeftCuts(s[1..]);
      left := [s[0]] + rest;
      assert s == [s[0]] + s[1..];
    }
  }

  lemma {:induction false} TrimRightCuts(s: string) returns (right: string)
    ensures s == TrimRight(s) + right && Blank(right)
  {
    right := "";
    if s != "" && IsSpace(s[|s| - 1]) {
      var rest := TrimRightCuts(s[..|s| - 1]);
      right := rest + [s[|s| - 1]];
      assert s == s[..|s| - 1] + [s[|s| - 1]];
    }
  }

  /** Trimming cuts off the blanks at both ends and nothing else. */
  lemma TrimCuts(s: string) returns (left: string, right: string)
    ensures Between(s, left, Trim(s), right)
  {
    left := TrimLeftCuts(s);
    right := TrimRightCuts(TrimLeft(s));
    TrimEnds(s);
    TrimInTwo(s);
    hide Trim, TrimLeft, TrimRight, Blank;
    assert s == left + (TrimRight(TrimLeft(s)) + right);
  }

  lemma TrimEnds(s: string)
    ensures Trim(s) != "" ==> !Blank([Trim(s)[0]]) && !Blank([Trim(s)[|Trim(s)| - 1]])
  {
    TrimIsTrimmed(s);
    hide Trim;
    if Trim(s) != "" {
      NotBlank(Trim(s)[0]);
      NotBlank(Trim(s)[|Trim(s)| - 1]);
    }
  }

  lemma NotBlank(c: char)
    requires !IsSpace(c)
    ensures !Blank([c])
  {
    assert [c][0] == c;
  }

  lemma TrimInTwo(s: string)
    ensures Trim(s) == TrimRight(TrimLeft(s))
  {
  }

  /** The same letter but for its case, letters being those of ASCII. */
  predicate SameLetter(a: char, b: char) {
    || a == b
    || ('a' <= a <= 'z' && a as int - b as int == 32)
    || ('a' <= b <= 'z' && b as int - a as int == 32)
  }

  predicate SameButCase(s: string, t: string) {
    |s| == |t| && forall i :: 0 <= i < |s| ==> SameLetter(s[i], t[i])
  }

  lemma LowerDecides(s: string, t: string)
    ensures Lower(s) == Lower(t) <==> SameButCase(s, t)
  {
    if Lower(s) == Lower(t) {
      assert |Lower(s)| == |Lower(t)|;
      forall i | 0 <= i < |s|
        ensures SameLetter(s[i], t[i])
      {
        assert Lower(s)[i] == Lower(t)[i];
      }
    }
  }

  lemma UpperKeepsLetters(s: string)
    ensures SameButCase(s, Upper(s))
    ensures forall i :: 0 <= i < |s| ==> !('a' <= Upper(s)[i] <= 'z')
  {
  }

  /** Byte order. */
  predicate AtMost(a: string, b: string) {
    a == "" || (b != "" && (a[0] < b[0] || (a[0] == b[0] && AtMost(a[1..], b[1..]))))
  }

  /** The first place where the texts differ, and a has the smaller character there. */
  predicate SmallerAt(a: string, b: string, i: nat) {
    i < |a| && i < |b| && a[..i] == b[..i] && a[i] as int < b[i] as int
  }

  /** A text comes before its continuations, and otherwise the first difference decides. */
  ghost predicate Before(a: string, b: string) {
    a <= b || exists i :: SmallerAt(a, b, i)
  }

  lemma {:induction false} ByteOrder(a: string, b: string)
    ensures AtMost(a, b) <==> Before(a, b)
  {
    if a != "" && b != "" {
      ByteOrder(a[1..], b[1..]);
      TailsDecide(a, b);
      hide Before;
    }
  }

  lemma TailsDecide(a: string, b: string)
    requires a != "" && b != ""
    ensures Before(a, b) <==> a[0] < b[0] || (a[0] == b[0] && Before(a[1..], b[1..]))
  {
    assert SmallerAt(a, b, 0) <==> a[0] < b[0];
    forall i: nat
      ensures SmallerAt(a, b, i + 1) <==> a[0] == b[0] && SmallerAt(a[1..], b[1..], i)
    {
      TailsDiffer(a, b, i);
    }
    assert a <= b <==> a[0] == b[0] && a[1..] <= b[1..] by {
      assert a == [a[0]] + a[1..] && b == [b[0]] + b[1..];
    }
    if i: nat :| SmallerAt(a, b, i) && i > 0 {
      assert SmallerAt(a[1..], b[1..], i - 1);
    }
  }

  lemma TailsDiffer(a: string, b: string, i: nat)
    requires a != "" && b != ""
    ensures SmallerAt(a, b, i + 1) <==> a[0] == b[0] && SmallerAt(a[1..], b[1..], i)
  {
    var s, t := a[1..], b[1..];
    if i < |s| && i < |t| {
      assert a[i + 1] == s[i] && b[i + 1] == t[i];
      assert a[..i + 1] == [a[0]] + s[..i] && b[..i + 1] == [b[0]] + t[..i];
    }
  }

  /** In byte order, without repetitions. */
  predicate Ascending(parts: seq<string>) {
    forall i, j :: 0 <= i < j < |parts| ==> AtMost(parts[i], parts[j]) && parts[i] != parts[j]
  }

  function Min(a: int, b: int): int {
    if a < b then a else b
  }

  /** Equal sequences cut at the same place have equal pieces. */
  lemma Pieces<T>(a: seq<T>, x: seq<T>, b: seq<T>, y: seq<T>)
    requires |a| == |b| && a + x == b + y
    ensures a == b && x == y
  {
    assert a == (a + x)[..|a|] && b == (b + y)[..|b|];
    assert x == (a + x)[|a|..] && y == (b + y)[|b|..];
  }
}
