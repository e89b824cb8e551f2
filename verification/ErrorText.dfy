/** The one string that lists everything wrong with a payload. */
module ErrorText {
  import opened Text

  datatype FieldError = FieldError(field: string, reason: string)

  /** The text of one error; one with neither field nor reason has none. */
  function Rendered(f: FieldError): Option<string> {
    if f.field == "" && f.reason == "" then None
    else if f.field == "" then Some(f.reason)
    else Some(f.field + ": " + f.reason)
  }

  /** The texts there are to show. */
  function Parts(fields: seq<FieldError>): set<string> {
    set f | f in fields && Rendered(f).Some? :: Rendered(f).value
  }

  function Joined(parts: seq<string>): string {
    if parts == [] then "" else if |parts| == 1 then parts[0] else parts[0] + "; " + Joined(parts[1..])
  }

  // ---- byte order ----

  lemma {:induction false} Total(a: string, b: string)
    ensures AtMost(a, b) || AtMost(b, a)
  {
    if a != "" && b != "" {
      Total(a[1..], b[1..]);
    }
  }

  lemma {:induction false} Antisymmetric(a: string, b: string)
    requires AtMost(a, b) && AtMost(b, a)
    ensures a == b
  {
    if a != "" {
      Antisymmetric(a[1..], b[1..]);
      assert a == [a[0]] + a[1..] && b == [b[0]] + b[1..];
    }
  }

  lemma {:induction false} Transitive(a: string, b: string, c: string)
    requires AtMost(a, b) && AtMost(b, c)
    ensures AtMost(a, c)
  {
    if a != "" && a[0] == b[0] == c[0] {
      Transitive(a[1..], b[1..], c[1..]);
    }
  }

  predicate Sorted(parts: seq<string>) {
    forall i, j :: 0 <= i < j < |parts| ==> AtMost(parts[i], parts[j])
  }

  // ---- the listing of a set ----

  predicate Lists(parts: seq<string>, all: set<string>) {
    Ascending(parts) && (forall p <- parts :: p in all) && (forall p <- all :: p in parts)
  }

  /** A set has only one strictly increasing listing. */
  lemma {:induction false} OnlyOneListing(a: seq<string>, b: seq<string>, all: set<string>)
    requires Lists(a, all) && Lists(b, all)
    ensures a == b
    decreases |a|
  {
    assert |a| > 0 ==> a[0] in b;
    assert |b| > 0 ==> b[0] in a;
    if a != [] && b != [] {
      LeastIsFirst(a, b[0]);
      LeastIsFirst(b, a[0]);
      Antisymmetric(a[0], b[0]);
      RestLists(a, all);
      RestLists(b, all);
      OnlyOneListing(a[1..], b[1..], all - {a[0]});
      assert a == [a[0]] + a[1..] && b == [b[0]] + b[1..];
    }
  }

  lemma RestLists(parts: seq<string>, all: set<string>)
    requires Lists(parts, all) && parts != []
    ensures Lists(parts[1..], all - {parts[0]})
  {
    hide AtMost;
    assert parts == [parts[0]] + parts[1..];
  }

  lemma LeastIsFirst(parts: seq<string>, p: string)
    requires Ascending(parts) && p in parts
    ensures AtMost(parts[0], p)
  {
    Total(p, p);
  }

  /** The texts to show are those of the errors: field and reason with a colon between,
      the reason alone when there is no field, and nothing for an error without either. */
  predicate TextsOf(fields: seq<FieldError>, all: set<string>) {
    && (forall f <- fields :: f.field != "" ==> f.field + ": " + f.reason in all)
    && (forall f <- fields :: f.field == "" && f.reason != "" ==> f.reason in all)
    && forall p <- all :: exists f <- fields ::
         (f.field != "" && p == f.field + ": " + f.reason) || (f.field == "" && f.reason != "" && p == f.reason)
  }

  lemma PartsAreTexts(fields: seq<FieldError>, all: set<string>)
    ensures TextsOf(fields, all) <==> all == Parts(fields)
  {
    if TextsOf(fields, all) {
      forall p
        ensures p in all <==> p in Parts(fields)
      {
      }
    }
  }

  /** The parts one after the other, with a semicolon and a space between. */
  lemma {:induction false} JoinedSplits(a: seq<string>, b: seq<string>)
    ensures Joined([]) == "" && forall p :: Joined([p]) == p
    ensures a != [] && b != [] ==> Joined(a + b) == Joined(a) + "; " + Joined(b)
  {
    if |a| > 1 {
      JoinedSplits(a[1..], b);
      assert (a + b)[1..] == a[1..] + b;
    } else if |a| == 1 {
      assert (a + b)[1..] == b;
    }
  }

  /** The text shows exactly these errors. */
  ghost predicate Shows(fields: seq<FieldError>, text: string) {
    exists parts, all :: TextsOf(fields, all) && Lists(parts, all) && text == Joined(parts)
  }

  /** The text is a function of the set of errors: their order and how often each is
      given make no difference. */
  lemma TextIsOfTheSet(fields: seq<FieldError>, others: seq<FieldError>, text: string, other: string)
    requires Shows(fields, text) && Shows(others, other)
    requires (forall f <- fields :: f in others) && (forall f <- others :: f in fields)
    ensures text == other
  {
    var a, all :| TextsOf(fields, all) && Lists(a, all) && text == Joined(a);
    var b, set2 :| TextsOf(others, set2) && Lists(b, set2) && other == Joined(b);
    PartsAreTexts(fields, all);
    PartsAreTexts(others, set2);
    assert Parts(fields) == Parts(others);
    OnlyOneListing(a, b, all);
  }

  /** Two texts, whatever the order of their errors and however often they are given,
      and with errors that say nothing among them: the smaller, a semicolon and a space,
      the greater. */
  lemma TwoTexts(fields: seq<FieldError>, first: string, second: string, text: string)
    requires TextsOf(fields, {first, second}) && Shows(fields, text) && Before(first, second) && first != second
    ensures text == first + "; " + second
  {
    var parts, all :| TextsOf(fields, all) && Lists(parts, all) && text == Joined(parts);
    PartsAreTexts(fields, all);
    PartsAreTexts(fields, {first, second});
    ByteOrder(first, second);
    OnlyOneListing(parts, [first, second], all);
    JoinedSplits([first], [second]);
    assert [first] + [second] == [first, second];
  }

  // ---- the code ----

  /** Inserts a text behind those not above it. */
  function Inserted(parts: seq<string>, p: string): seq<string> {
    if parts == [] || !AtMost(parts[0], p) then [p] + parts else [parts[0]] + Inserted(parts[1..], p)
  }

  lemma SortedAfter(p: string, parts: seq<string>)
    requires Sorted(parts) && forall q <- parts :: AtMost(p, q)
    ensures Sorted([p] + parts)
  {
    hide AtMost;
  }

  lemma {:induction false} InsertedHolds(parts: seq<string>, p: string)
    ensures multiset(Inserted(parts, p)) == multiset(parts) + multiset{p}
  {
    if parts != [] {
      InsertedHolds(parts[1..], p);
      assert parts == [parts[0]] + parts[1..];
    }
  }

  lemma NoneSorted()
    ensures Sorted([])
  {
  }

  lemma SortedTail(parts: seq<string>)
    requires Sorted(parts) && parts != []
    ensures Sorted(parts[1..]) && forall q <- parts[1..] :: AtMost(parts[0], q)
  {
    hide AtMost;
  }

  lemma {:induction false} InsertedSorts(parts: seq<string>, p: string)
    requires Sorted(parts)
    ensures Sorted(Inserted(parts, p))
  {
    hide AtMost, Sorted;
    if parts == [] {
      NoneSorted();
      SortedAfter(p, []);
    } else {
      var rest := parts[1..];
      SortedTail(parts);
      if AtMost(parts[0], p) {
        InsertedSorts(rest, p);
        InsertedHolds(rest, p);
        forall q <- Inserted(rest, p)
          ensures AtMost(parts[0], q)
        {
          assert q in multiset(Inserted(rest, p));
        }
        SortedAfter(parts[0], Inserted(rest, p));
      } else {
        Total(parts[0], p);
        forall q <- parts
          ensures AtMost(p, q)
        {
          if q != parts[0] {
            Transitive(p, parts[0], q);
          }
        }
        SortedAfter(p, parts);
      }
    }
  }

  method Sort(parts: seq<string>) returns (sorted: seq<string>)
    ensures Sorted(sorted) && multiset(sorted) == multiset(parts)
  {
    sorted := [];
    for i := 0 to |parts|
      invariant Sorted(sorted) && multiset(sorted) == multiset(parts[..i])
    {
      InsertedSorts(sorted, parts[i]);
      InsertedHolds(sorted, parts[i]);
      assert parts[..i + 1] == parts[..i] + [parts[i]];
      sorted := Inserted(sorted, parts[i]);
    }
    assert parts[..|parts|] == parts;
  }

  /** Drops each text equal to the one before it. */
  method Compact(parts: seq<string>) returns (kept: seq<string>)
    requires Sorted(parts)
    ensures Ascending(kept) && (forall p <- kept :: p in parts) && (forall p <- parts :: p in kept)
  {
    kept := [];
    for i := 0 to |parts|
      invariant Ascending(kept) && (kept == [] <==> i == 0)
      invariant (forall p <- kept :: p in parts[..i]) && (forall p <- parts[..i] :: p in kept)
      invariant i > 0 ==> kept[|kept| - 1] == parts[i - 1]
    {
      if i == 0 || parts[i] != parts[i - 1] {
        forall j | 0 <= j < |kept|
          ensures AtMost(kept[j], parts[i]) && kept[j] != parts[i]
        {
          assert kept[j] in parts[..i];
          var k :| 0 <= k < i && parts[k] == kept[j];
          if kept[j] == parts[i] {
            Antisymmetric(parts[i - 1], parts[i]) by {
              Total(parts[i - 1], parts[i - 1]);
            }
          }
        }
        kept := kept + [parts[i]];
      }
    }
  }

  method FormatFieldErrors(fields: seq<FieldError>) returns (text: string)
    ensures Shows(fields, text)
  {
    PartsAreTexts(fields, Parts(fields));
    if |fields| == 0 {
      assert Lists([], Parts(fields));
      return "";
    }
    var parts: seq<string> := [];
    for i := 0 to |fields|
      invariant (forall p <- parts :: p in Parts(fields))
      invariant forall j :: 0 <= j < i && Rendered(fields[j]).Some? ==> Rendered(fields[j]).value in parts
    {
      var part := Rendered(fields[i]);
      if part.Some? {
        parts := parts + [part.value];
      }
    }
    var sorted := Sort(parts);
    assert forall p <- sorted :: p in multiset(parts);
    assert forall p <- parts :: p in multiset(sorted);
    var kept := Compact(sorted);
    assert Lists(kept, Parts(fields));
    text := Joined(kept);
  }
}
