/** Plate and transponder reads: the verbatim text and its matching key. */
module Identity {
  import opened Text

  datatype Plate = Plate(number: string, jurisdiction: string, numberKey: string, jurisdictionKey: string)

  datatype Transponder = Transponder(number: string, numberKey: string)

  predicate IsAlphanumeric(c: char) {
    IsLower(c) || IsUpper(c) || IsDigit(c)
  }

  /** The letters and digits of s, upper-cased, in order. */
  function KeyOf(s: string): (k: string)
    ensures forall i :: 0 <= i < |k| ==> IsUpper(k[i]) || IsDigit(k[i])
  {
    if s == "" then ""
    else KeyOf(s[..|s| - 1]) + (if IsAlphanumeric(s[|s| - 1]) then [UpperChar(s[|s| - 1])] else "")
  }

  method Canonicalize(s: string) returns (key: string)
    ensures key == KeyOf(s)
  {
    key := "";
    for i := 0 to |s|
      invariant key == KeyOf(s[..i])
    {
      var c := s[i];
      assert s[..i + 1][..i] == s[..i];
      if IsLower(c) {
        key := key + [(c as int - 32) as char];
      } else if IsUpper(c) || IsDigit(c) {
        key := key + [c];
      }
    }
    assert s[..|s|] == s;
  }

  function NewPlate(number: string, jurisdiction: string): Plate {
    Plate(number, jurisdiction, KeyOf(number), KeyOf(jurisdiction))
  }

  function NewTransponder(number: string): Transponder {
    Transponder(number, KeyOf(number))
  }

  /** A read is usable when it holds at least one letter or digit. */
  predicate Usable(read: string) {
    exists i :: 0 <= i < |read| && IsAlphanumeric(read[i])
  }

  /** The key is empty exactly for the unusable reads. */
  lemma {:induction false} KeyEmptyIffUnusable(s: string)
    ensures KeyOf(s) == "" <==> !Usable(s)
  {
    if s != "" {
      var front, last := s[..|s| - 1], |s| - 1;
      KeyEmptyIffUnusable(front);
      assert forall i :: 0 <= i < last ==> front[i] == s[i];
      assert Usable(s) <==> Usable(front) || IsAlphanumeric(s[last]);
    }
  }

  lemma {:induction false} KeyAppends(a: string, b: string)
    ensures KeyOf(a + b) == KeyOf(a) + KeyOf(b)
  {
    if b == "" {
      assert a + b == a;
    } else {
      KeyAppends(a, b[..|b| - 1]);
      assert (a + b)[..|a + b| - 1] == a + b[..|b| - 1];
    }
  }

  /** Two spellings of one read: the same but for the case of letters and for
      characters that are neither letters nor digits. */
  lemma SeparatorsAndCaseAreIgnored(a: string, noise: string, b: string)
    requires !Usable(noise)
    ensures KeyOf(a + noise + b) == KeyOf(a + b)
    ensures KeyOf(Lower(a)) == KeyOf(a)
  {
    hide KeyOf, Usable, Lower;
    KeyAppends(a + noise, b);
    KeyAppends(a, noise);
    KeyAppends(a, b);
    KeyEmptyIffUnusable(noise);
    CaseIsIgnored(a);
  }

  lemma {:induction false} CaseIsIgnored(a: string)
    ensures KeyOf(Lower(a)) == KeyOf(a)
  {
    if a != "" {
      CaseIsIgnored(a[..|a| - 1]);
      assert Lower(a)[..|a| - 1] == Lower(a[..|a| - 1]);
    }
  }

  lemma SingleKey(c: char)
    requires IsUpper(c) || IsDigit(c)
    ensures KeyOf([c]) == [c]
  {
    assert [c][..0] == "";
  }

  /** A key is its own key: canonicalizing again changes nothing, and no digit is
      dropped, so leading zeros survive. */
  lemma {:induction false} KeySettles(s: string)
    ensures KeyOf(KeyOf(s)) == KeyOf(s)
  {
    if s != "" {
      var front, last := s[..|s| - 1], s[|s| - 1];
      KeySettles(front);
      if IsAlphanumeric(last) {
        KeyAppends(KeyOf(front), [UpperChar(last)]);
        SingleKey(UpperChar(last));
      } else {
        assert KeyOf(s) == KeyOf(front);
      }
    }
  }

  /** The key of one character, letters and digits being those of ASCII; with
      KeyAppends this is what every key is. */
  lemma KeyOfOne(c: char)
    ensures KeyOf([c]) ==
      if 'a' <= c <= 'z' then [(c as int - 32) as char]
      else if 'A' <= c <= 'Z' || '0' <= c <= '9' then [c]
      else ""
  {
    assert [c][..0] == "";
  }
}
