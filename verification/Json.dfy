/** JSON values and their compact text, with the string escapes of section 7 of
    RFC 8259 in the form Go's encoder uses, and a proof that the text determines
    the value. */
module Json {
  import opened Text

  /** An object is the list of its members in the order they are written. */
  datatype Value =
    | Null
    | Bool(b: bool)
    | Num(text: string)
    | Str(s: string)
    | Arr(items: seq<Value>)
    | Obj(members: seq<Member>)

  datatype Member = Member(key: string, value: Value)

  predicate IsNumberChar(c: char) {
    IsDigit(c) || c == '-' || c == '+' || c == '.' || c == 'e' || c == 'E'
  }

  /** The only demand on a value: its numbers are spelled as numbers. */
  predicate WellFormed(v: Value)
    decreases v
  {
    match v
    case Num(text) =>
      text != "" && (IsDigit(text[0]) || text[0] == '-') && forall i :: 0 <= i < |text| ==> IsNumberChar(text[i])
    case Arr(items) => forall v <- items :: WellFormed(v)
    case Obj(members) => forall m <- members :: WellFormed(m.value)
    case _ => true
  }

  /** Every object lists its keys in increasing order, as the encoder writes a map. */
  predicate Ordered(v: Value)
    decreases v
  {
    match v
    case Arr(items) => forall v <- items :: Ordered(v)
    case Obj(members) =>
      && Ascending(seq(|members|, i requires 0 <= i < |members| => members[i].key))
      && forall m <- members :: Ordered(m.value)
    case _ => true
  }

  // ---- encoding ----

  function HexChar(d: nat): char
    requires d < 16
  {
    if d < 10 then ('0' as int + d) as char else ('a' as int + d - 10) as char
  }

  /** Characters written as a four-digit code: controls without a short form, the
      three the encoder keeps out of HTML, and the two line separators. */
  predicate NeedsCode(c: char) {
    c < ' ' || c == '<' || c == '>' || c == '&' || c == '\U{2028}' || c == '\U{2029}'
  }

  function Code(n: nat): (e: string)
    requires n < 65536
    ensures |e| == 6 && e[0] == '\\' && e[1] == 'u'
  {
    ['\\', 'u', HexChar(n / 4096), HexChar(n / 256 % 16), HexChar(n / 16 % 16), HexChar(n % 16)]
  }

  function Escape(c: char): (e: string)
    ensures e != ""
  {
    if c == '"' || c == '\\' then ['\\', c]
    else if c == '\U{8}' then ['\\', 'b']
    else if c == '\U{c}' then ['\\', 'f']
    else if c == '\n' then ['\\', 'n']
    else if c == '\r' then ['\\', 'r']
    else if c == '\t' then ['\\', 't']
    else if NeedsCode(c) then Code(c as int)
    else [c]
  }

  // Each function below writes its value in front of the text that follows it.

  /** A string literal from its first character on, closing quote included. */
  function PutLiteral(s: string, rest: string): (r: string)
    ensures r != ""
  {
    if s == "" then ['"'] + rest else Escape(s[0]) + PutLiteral(s[1..], rest)
  }

  function Put(v: Value, rest: string): (r: string)
    ensures r != ""
    decreases v, 1
  {
    match v
    case Null => "null" + rest
    case Bool(b) => if b then "true" + rest else "false" + rest
    case Num(text) => (if text == "" then "0" else text) + rest
    case Str(s) => ['"'] + PutLiteral(s, rest)
    case Arr(items) =>
      if items == [] then ['['] + ([']'] + rest)
      else ['['] + Put(items[0], PutItems(items[1..], rest))
    case Obj(members) =>
      if members == [] then ['{'] + (['}'] + rest)
      else ['{'] + PutMember(members[0], PutMembers(members[1..], rest))
  }

  function PutMember(m: Member, rest: string): (r: string)
    ensures r != ""
    decreases m, 0
  {
    ['"'] + PutLiteral(m.key, [':'] + Put(m.value, rest))
  }

  /** The items after the first, and the closing bracket. */
  function PutItems(items: seq<Value>, rest: string): (r: string)
    ensures r != "" && Stops(r)
    decreases items, 0
  {
    if items == [] then [']'] + rest else [','] + Put(items[0], PutItems(items[1..], rest))
  }

  function PutMembers(members: seq<Member>, rest: string): (r: string)
    ensures r != "" && Stops(r)
    decreases members, 0
  {
    if members == [] then ['}'] + rest else [','] + PutMember(members[0], PutMembers(members[1..], rest))
  }

  /** What may follow a value: nothing, or a delimiter. */
  predicate Stops(rest: string) {
    rest == "" || rest[0] == ',' || rest[0] == ']' || rest[0] == '}'
  }

  function Encode(v: Value): string {
    Put(v, "")
  }

  // ---- the text determines the value ----

  /** Two texts that agree also agree after their first characters. */
  lemma Peel(c: char, x: string, d: char, y: string)
    requires [c] + x == [d] + y
    ensures c == d && x == y
  {
    assert ([c] + x)[0] == c && ([d] + y)[0] == d;
    assert ([c] + x)[1..] == x && ([d] + y)[1..] == y;
  }

  lemma HexCharDiffers(a: nat, b: nat)
    requires a < 16 && b < 16 && HexChar(a) == HexChar(b)
    ensures a == b
  {
  }

  lemma HexRecompose(n: nat)
    ensures n == 16 * (16 * (16 * (n / 4096) + n / 256 % 16) + n / 16 % 16) + n % 16
  {
    assert n / 256 == n / 16 / 16 && n / 4096 == n / 256 / 16;
  }

  lemma CodesDiffer(c: char, d: char)
    requires c as int < 65536 && d as int < 65536 && Code(c as int) == Code(d as int)
    ensures c == d
  {
    var e, f := Code(c as int), Code(d as int);
    assert e[2] == f[2] && e[3] == f[3] && e[4] == f[4] && e[5] == f[5];
    var m, n := c as int, d as int;
    HexCharDiffers(m / 4096, n / 4096);
    HexCharDiffers(m / 256 % 16, n / 256 % 16);
    HexCharDiffers(m / 16 % 16, n / 16 % 16);
    HexCharDiffers(m % 16, n % 16);
    HexRecompose(m);
    HexRecompose(n);
  }

  /** No escape is the start of another. */
  lemma EscapePrefix(c: char, d: char, x: string, y: string)
    requires Escape(c) + x == Escape(d) + y
    ensures c == d && x == y
  {
    var e, f := Escape(c), Escape(d);
    assert e[0] == (e + x)[0] == (f + y)[0] == f[0];
    if |e| > 1 && |f| > 1 {
      assert e[1] == (e + x)[1] == (f + y)[1] == f[1];
    }
    assert |e| == |f|;
    assert e == (e + x)[..|e|] && f == (f + y)[..|f|];
    assert x == (e + x)[|e|..] && y == (f + y)[|f|..];
    if |e| == 6 {
      CodesDiffer(c, d);
    }
  }

  lemma {:induction false} LiteralPrefix(a: string, b: string, x: string, y: string)
    requires PutLiteral(a, x) == PutLiteral(b, y)
    ensures a == b && x == y
  {
    if a == "" && b == "" {
      Peel('"', x, '"', y);
    } else if a != "" && b != "" {
      EscapePrefix(a[0], b[0], PutLiteral(a[1..], x), PutLiteral(b[1..], y));
      LiteralPrefix(a[1..], b[1..], x, y);
      assert a == [a[0]] + a[1..] && b == [b[0]] + b[1..];
    } else {
      QuoteIsNoEscape(a, b, x, y);
    }
  }

  /** No escape looks like a closing quote. */
  lemma QuoteIsNoEscape(a: string, b: string, x: string, y: string)
    requires (a == "") != (b == "")
    ensures PutLiteral(a, x) != PutLiteral(b, y)
  {
    if a == "" {
      assert PutLiteral(b, y)[0] == Escape(b[0])[0];
    } else {
      assert PutLiteral(a, x)[0] == Escape(a[0])[0];
    }
  }

  /** How far a number can reach into a text. */
  function NumberSpan(s: string): nat {
    if s != "" && IsNumberChar(s[0]) then 1 + NumberSpan(s[1..]) else 0
  }

  lemma {:induction false} NumberEnds(a: string, x: string)
    requires (forall i :: 0 <= i < |a| ==> IsNumberChar(a[i])) && Stops(x)
    ensures NumberSpan(a + x) == |a|
  {
    if a == "" {
      assert a + x == x;
    } else {
      NumberEnds(a[1..], x);
      assert (a + x)[1..] == a[1..] + x;
    }
  }

  lemma NumberPrefix(a: string, b: string, x: string, y: string)
    requires (forall i :: 0 <= i < |a| ==> IsNumberChar(a[i])) && (forall i :: 0 <= i < |b| ==> IsNumberChar(b[i]))
    requires Stops(x) && Stops(y) && a + x == b + y
    ensures a == b && x == y
  {
    NumberEnds(a, x);
    NumberEnds(b, y);
    assert a == (a + x)[..|a|] && b == (b + y)[..|b|];
    assert x == (a + x)[|a|..] && y == (b + y)[|b|..];
  }

  /** The first character of a value's text gives its kind away. */
  function Kind(v: Value): nat {
    match v
    case Null => 0
    case Bool(b) => if b then 1 else 2
    case Num(_) => 3
    case Str(_) => 4
    case Arr(_) => 5
    case Obj(_) => 6
  }

  function FirstChar(v: Value): char {
    match v
    case Null => 'n'
    case Bool(b) => if b then 't' else 'f'
    case Num(text) => if text == "" then '0' else text[0]
    case Str(_) => '"'
    case Arr(_) => '['
    case Obj(_) => '{'
  }

  lemma TextStarts(v: Value, x: string)
    ensures Put(v, x)[0] == FirstChar(v)
  {
  }

  lemma NoValueStartsClosed(v: Value, x: string)
    requires WellFormed(v)
    ensures Put(v, x)[0] != ']'
  {
    TextStarts(v, x);
  }

  lemma {:induction false} PutPrefix(a: Value, b: Value, x: string, y: string)
    requires WellFormed(a) && WellFormed(b) && Stops(x) && Stops(y)
    requires Put(a, x) == Put(b, y)
    ensures a == b && x == y
    decreases a, 1
  {
    TextStarts(a, x);
    TextStarts(b, y);
    assert Kind(a) == Kind(b);
    match a
    case Null =>
      assert x == ("null" + x)[4..] && y == ("null" + y)[4..];
    case Bool(t) =>
      var word := if t then "true" else "false";
      assert x == (word + x)[|word|..] && y == (word + y)[|word|..];
    case Num(text) =>
      NumberPrefix(text, b.text, x, y);
    case Str(s) =>
      Peel('"', PutLiteral(s, x), '"', PutLiteral(b.s, y));
      LiteralPrefix(s, b.s, x, y);
    case Arr(items) =>
      ArrPrefix(items, b.items, x, y);
    case Obj(members) =>
      ObjPrefix(members, b.members, x, y);
  }

  /** What follows an opening bracket: an empty array closes at once. */
  function AfterBracket(items: seq<Value>, rest: string): string {
    if items == [] then [']'] + rest else Put(items[0], PutItems(items[1..], rest))
  }

  function AfterBrace(members: seq<Member>, rest: string): string {
    if members == [] then ['}'] + rest else PutMember(members[0], PutMembers(members[1..], rest))
  }

  lemma {:induction false} ArrPrefix(a: seq<Value>, b: seq<Value>, x: string, y: string)
    requires (forall v <- a :: WellFormed(v)) && (forall v <- b :: WellFormed(v)) && Stops(x) && Stops(y)
    requires Put(Arr(a), x) == Put(Arr(b), y)
    ensures a == b && x == y
    decreases a, 2
  {
    Peel('[', AfterBracket(a, x), '[', AfterBracket(b, y));
    if a != [] && b != [] {
      PutPrefix(a[0], b[0], PutItems(a[1..], x), PutItems(b[1..], y));
      ItemsPrefix(a[1..], b[1..], x, y);
      assert a == [a[0]] + a[1..] && b == [b[0]] + b[1..];
    } else if a != [] {
      NoValueStartsClosed(a[0], PutItems(a[1..], x));
    } else if b != [] {
      NoValueStartsClosed(b[0], PutItems(b[1..], y));
    } else {
      Peel(']', x, ']', y);
    }
  }

  lemma {:induction false} ItemsPrefix(a: seq<Value>, b: seq<Value>, x: string, y: string)
    requires (forall v <- a :: WellFormed(v)) && (forall v <- b :: WellFormed(v)) && Stops(x) && Stops(y)
    requires PutItems(a, x) == PutItems(b, y)
    ensures a == b && x == y
    decreases a, 0
  {
    assert PutItems(a, x)[0] == (if a == [] then ']' else ',');
    assert PutItems(b, y)[0] == (if b == [] then ']' else ',');
    if a == [] {
      Peel(']', x, ']', y);
    } else {
      Peel(',', AfterBracket(a, x), ',', AfterBracket(b, y));
      PutPrefix(a[0], b[0], PutItems(a[1..], x), PutItems(b[1..], y));
      ItemsPrefix(a[1..], b[1..], x, y);
      assert a == [a[0]] + a[1..] && b == [b[0]] + b[1..];
    }
  }

  lemma {:induction false} MemberPrefix(a: Member, b: Member, x: string, y: string)
    requires WellFormed(a.value) && WellFormed(b.value) && Stops(x) && Stops(y)
    requires PutMember(a, x) == PutMember(b, y)
    ensures a == b && x == y
    decreases a, 0
  {
    var s, t := [':'] + Put(a.value, x), [':'] + Put(b.value, y);
    Peel('"', PutLiteral(a.key, s), '"', PutLiteral(b.key, t));
    LiteralPrefix(a.key, b.key, s, t);
    Peel(':', Put(a.value, x), ':', Put(b.value, y));
    PutPrefix(a.value, b.value, x, y);
  }

  lemma {:induction false} ObjPrefix(a: seq<Member>, b: seq<Member>, x: string, y: string)
    requires (forall m <- a :: WellFormed(m.value)) && (forall m <- b :: WellFormed(m.value)) && Stops(x) && Stops(y)
    requires Put(Obj(a), x) == Put(Obj(b), y)
    ensures a == b && x == y
    decreases a, 2
  {
    Peel('{', AfterBrace(a, x), '{', AfterBrace(b, y));
    assert AfterBrace(a, x)[0] == (if a == [] then '}' else '"');
    assert AfterBrace(b, y)[0] == (if b == [] then '}' else '"');
    if a == [] {
      Peel('}', x, '}', y);
    } else {
      MemberPrefix(a[0], b[0], PutMembers(a[1..], x), PutMembers(b[1..], y));
      MembersPrefix(a[1..], b[1..], x, y);
      assert a == [a[0]] + a[1..] && b == [b[0]] + b[1..];
    }
  }

  lemma {:induction false} MembersPrefix(a: seq<Member>, b: seq<Member>, x: string, y: string)
    requires (forall m <- a :: WellFormed(m.value)) && (forall m <- b :: WellFormed(m.value)) && Stops(x) && Stops(y)
    requires PutMembers(a, x) == PutMembers(b, y)
    ensures a == b && x == y
    decreases a, 0
  {
    assert PutMembers(a, x)[0] == (if a == [] then '}' else ',');
    assert PutMembers(b, y)[0] == (if b == [] then '}' else ',');
    if a == [] {
      Peel('}', x, '}', y);
    } else {
      Peel(',', AfterBrace(a, x), ',', AfterBrace(b, y));
      MemberPrefix(a[0], b[0], PutMembers(a[1..], x), PutMembers(b[1..], y));
      MembersPrefix(a[1..], b[1..], x, y);
      assert a == [a[0]] + a[1..] && b == [b[0]] + b[1..];
    }
  }

  /** The text of a value is the text of no other value. */
  lemma EncodeDiffers(a: Value, b: Value)
    requires WellFormed(a) && WellFormed(b)
    ensures Encode(a) == Encode(b) <==> a == b
  {
    if Encode(a) == Encode(b) {
      PutPrefix(a, b, "", "");
    }
  }

  // ---- the text, said without what follows it ----

  /** What an escape stands for: a character itself, if it may stand unescaped, a
      two-character form, or the number of a character in four hexadecimal digits. */
  predicate Means(e: string, c: char) {
    || (e == [c] && c as int >= 32 && c != '"' && c != '\\')
    || (|e| == 2 && e[0] == '\\' && ShortFor(e[1], c as int))
    || (|e| == 6 && e[..2] == "\\u"
        && c as int == 16 * (16 * (16 * HexValue(e[2]) + HexValue(e[3])) + HexValue(e[4])) + HexValue(e[5]))
  }

  predicate ShortFor(x: char, n: int) {
    match x
    case '"' => n == 34
    case '\\' => n == 92
    case '/' => n == 47
    case 'b' => n == 8
    case 'f' => n == 12
    case 'n' => n == 10
    case 'r' => n == 13
    case 't' => n == 9
    case _ => false
  }

  function HexValue(c: char): int {
    if '0' <= c <= '9' then c as int - 48
    else if 'a' <= c <= 'f' then c as int - 87
    else if 'A' <= c <= 'F' then c as int - 55
    else -65536
  }

  lemma HexCharReads(d: nat)
    requires d < 16
    ensures HexValue(HexChar(d)) == d
  {
  }

  lemma CodeMeans(c: char)
    requires c as int < 65536
    ensures Means(Code(c as int), c)
  {
    var n := c as int;
    HexCharReads(n / 4096);
    HexCharReads(n / 256 % 16);
    HexCharReads(n / 16 % 16);
    HexCharReads(n % 16);
    HexRecompose(n);
    hide HexChar, HexValue;
  }

  /** Kept out of the text, because HTML and JavaScript would misread them. */
  predicate Unsafe(x: char) {
    x == '<' || x == '>' || x == '&' || x == '\U{2028}' || x == '\U{2029}'
  }

  /** An escape stands for its character. */
  lemma EscapeMeans(c: char)
    ensures Means(Escape(c), c) && forall i :: 0 <= i < |Escape(c)| ==> !Unsafe(Escape(c)[i])
  {
    EscapeIsSafe(c);
    if |Escape(c)| == 6 {
      CodeMeans(c);
      hide Unsafe, Code, Means;
    } else {
      hide Unsafe, Code, HexValue;
    }
  }

  lemma EscapeIsSafe(c: char)
    ensures forall i :: 0 <= i < |Escape(c)| ==> !Unsafe(Escape(c)[i])
  {
  }

  function Escaped(s: string): string {
    if s == "" then "" else Escape(s[0]) + Escaped(s[1..])
  }

  function Quoted(s: string): string {
    "\"" + Escaped(s) + "\""
  }

  /** The texts with commas between them. */
  function Separated(parts: seq<string>): string {
    if parts == [] then "" else parts[0] + Continued(parts[1..])
  }

  function Continued(parts: seq<string>): string {
    if parts == [] then "" else "," + parts[0] + Continued(parts[1..])
  }

  /** The compact text of a value. */
  function Plain(v: Value): string
    decreases v, 0
  {
    match v
    case Null => "null"
    case Bool(b) => if b then "true" else "false"
    case Num(text) => text
    case Str(s) => Quoted(s)
    case Arr(items) => "[" + Separated(PlainItems(items)) + "]"
    case Obj(members) => "{" + Separated(PlainMembers(members)) + "}"
  }

  function PlainItems(items: seq<Value>): (parts: seq<string>)
    ensures |parts| == |items|
    decreases items, 0
  {
    if items == [] then [] else [Plain(items[0])] + PlainItems(items[1..])
  }

  function PlainMember(m: Member): string
    decreases m, 0
  {
    Quoted(m.key) + ":" + Plain(m.value)
  }

  function PlainMembers(members: seq<Member>): (parts: seq<string>)
    ensures |parts| == |members|
    decreases members, 0
  {
    if members == [] then [] else [PlainMember(members[0])] + PlainMembers(members[1..])
  }

  lemma Regroup(a: string, b: string, c: string, d: string)
    ensures a + (b + (c + d)) == (a + b + c) + d && a + (b + c) == (a + b) + c
  {
  }

  lemma {:induction false} LiteralIsPlain(s: string, rest: string)
    ensures PutLiteral(s, rest) == Escaped(s) + ("\"" + rest)
  {
    hide Escape;
    if s == "" {
      assert "" + ("\"" + rest) == ['"'] + rest;
    } else {
      LiteralIsPlain(s[1..], rest);
      Regroup(Escape(s[0]), Escaped(s[1..]), "\"" + rest, "");
    }
  }

  lemma QuotedIsPlain(s: string, rest: string)
    ensures ['"'] + PutLiteral(s, rest) == Quoted(s) + rest
  {
    LiteralIsPlain(s, rest);
    Regroup("\"", Escaped(s), "\"", rest);
    hide Escaped, PutLiteral;
  }

  lemma {:induction false} PutIsPlain(v: Value, rest: string)
    requires WellFormed(v)
    ensures Put(v, rest) == Plain(v) + rest
    decreases v, 1
  {
    hide Separated, Escaped, Quoted, PutLiteral;
    match v
    case Null =>
    case Bool(b) =>
    case Num(text) =>
    case Str(s) =>
      QuotedIsPlain(s, rest);
    case Arr(items) =>
      BracketsArePlain(items, rest);
      Regroup("[", Separated(PlainItems(items)), "]", rest);
    case Obj(members) =>
      BracesArePlain(members, rest);
      Regroup("{", Separated(PlainMembers(members)), "}", rest);
  }

  lemma BracketsArePlain(items: seq<Value>, rest: string)
    requires forall v <- items :: WellFormed(v)
    ensures AfterBracket(items, rest) == Separated(PlainItems(items)) + ("]" + rest)
    decreases items, 1
  {
    hide Put, Plain, WellFormed, Continued;
    if items == [] {
      assert "" + ("]" + rest) == [']'] + rest;
    } else {
      PutIsPlain(items[0], PutItems(items[1..], rest));
      ItemsArePlain(items[1..], rest);
      Regroup(Plain(items[0]), Continued(PlainItems(items[1..])), "]" + rest, "");
    }
  }

  lemma {:induction false} ItemsArePlain(items: seq<Value>, rest: string)
    requires forall v <- items :: WellFormed(v)
    ensures PutItems(items, rest) == Continued(PlainItems(items)) + ("]" + rest)
    decreases items, 0
  {
    hide Put, Plain, WellFormed;
    if items == [] {
      assert "" + ("]" + rest) == [']'] + rest;
    } else {
      PutIsPlain(items[0], PutItems(items[1..], rest));
      ItemsArePlain(items[1..], rest);
      Regroup(",", Plain(items[0]), Continued(PlainItems(items[1..])), "]" + rest);
    }
  }

  lemma {:induction false} MemberIsPlain(m: Member, rest: string)
    requires WellFormed(m.value)
    ensures PutMember(m, rest) == PlainMember(m) + rest
    decreases m, 0
  {
    hide Put, Plain, WellFormed, Quoted, PutLiteral;
    QuotedIsPlain(m.key, [':'] + Put(m.value, rest));
    PutIsPlain(m.value, rest);
    Regroup(Quoted(m.key), ":", Plain(m.value), rest);
  }

  lemma BracesArePlain(members: seq<Member>, rest: string)
    requires forall m <- members :: WellFormed(m.value)
    ensures AfterBrace(members, rest) == Separated(PlainMembers(members)) + ("}" + rest)
    decreases members, 1
  {
    hide PutMember, PlainMember, WellFormed, Continued;
    if members == [] {
      assert "" + ("}" + rest) == ['}'] + rest;
    } else {
      MemberIsPlain(members[0], PutMembers(members[1..], rest));
      MembersArePlain(members[1..], rest);
      Regroup(PlainMember(members[0]), Continued(PlainMembers(members[1..])), "}" + rest, "");
    }
  }

  lemma {:induction false} MembersArePlain(members: seq<Member>, rest: string)
    requires forall m <- members :: WellFormed(m.value)
    ensures PutMembers(members, rest) == Continued(PlainMembers(members)) + ("}" + rest)
    decreases members, 0
  {
    hide PutMember, PlainMember, WellFormed;
    if members == [] {
      assert "" + ("}" + rest) == ['}'] + rest;
    } else {
      MemberIsPlain(members[0], PutMembers(members[1..], rest));
      MembersArePlain(members[1..], rest);
      Regroup(",", PlainMember(members[0]), Continued(PlainMembers(members[1..])), "}" + rest);
    }
  }

  /** The encoder writes the compact text. */
  lemma EncodeIsPlain(v: Value)
    requires WellFormed(v)
    ensures Encode(v) == Plain(v)
  {
    PutIsPlain(v, "");
  }
}
