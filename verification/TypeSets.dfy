/** The operator's set of accepted transaction types, replaceable while serving. */
module TypeSets {
  import opened Text

  function TypeKey(t: string): string {
    Lower(Trim(t))
  }

  /** The set a list of configured names makes; later names override earlier ones. */
  function Build(types: seq<string>): (m: map<string, string>)
    ensures "" !in m
    ensures forall k <- m :: TypeKey(m[k]) == k
  {
    if types == [] then map[]
    else
      var front, last := Build(types[..|types| - 1]), types[|types| - 1];
      TrimIsTrimmed(last);
      if TypeKey(last) != "" then front[TypeKey(last) := Trim(last)] else front
  }

  function Resolve(m: map<string, string>, t: string): Option<string> {
    var key := TypeKey(t);
    if key != "" && key in m then Some(m[key]) else None
  }

  /** Two names of one type: the same letters in whatever case, blanks at the ends
      left out. */
  predicate SameType(s: string, t: string) {
    SameButCase(Trim(s), Trim(t))
  }

  predicate Named(t: string) {
    Trim(t) != ""
  }

  lemma KeyDecides(s: string, t: string)
    ensures TypeKey(s) == TypeKey(t) <==> SameType(s, t)
    ensures TypeKey(t) != "" <==> Named(t)
  {
    hide Trim, Lower;
    LowerDecides(Trim(s), Trim(t));
    LowerLength(Trim(t));
  }

  lemma KeyOfTrimmed(t: string)
    ensures TypeKey(Trim(t)) == TypeKey(t)
  {
    TrimIsTrimmed(t);
    hide Trim, Lower;
  }

  lemma LowerLength(t: string)
    ensures |Lower(t)| == |t|
  {
  }

  /** i is the last position at which a name of this type is configured. */
  predicate LastConfigured(types: seq<string>, t: string, i: int) {
    && 0 <= i < |types| && SameType(types[i], t)
    && forall j :: i < j < |types| ==> !SameType(types[j], t)
  }

  /** A type is accepted exactly when it is configured, in any case and with any blanks
      around it, and the spelling that comes back is the last configured one. */
  lemma {:induction false} LastSpellingWins(types: seq<string>, t: string)
    ensures Resolve(Build(types), t).Some? <==> Named(t) && exists i :: LastConfigured(types, t, i)
    ensures forall i :: LastConfigured(types, t, i) && Named(t) ==>
      Resolve(Build(types), t) == Some(Trim(types[i]))
  {
    hide TypeKey, Trim, SameType, Named;
    if types != [] {
      var n := |types| - 1;
      var front := types[..n];
      LastSpellingWins(front, t);
      KeyDecides(t, types[n]);
      KeyDecides(types[n], t);
      assert forall j :: 0 <= j < n ==> front[j] == types[j];
      if SameType(types[n], t) {
        assert LastConfigured(types, t, n);
      } else {
        assert forall i :: LastConfigured(types, t, i) <==> LastConfigured(front, t, i);
      }
    }
  }

  /** Resolving a spelling that was returned gives it back: the operator's own
      spelling is settled. */
  lemma ResolvedSettles(types: seq<string>, t: string)
    requires Resolve(Build(types), t).Some?
    ensures Resolve(Build(types), Resolve(Build(types), t).value) == Resolve(Build(types), t)
  {
  }

  // ---- replacing while serving ----

  /** What was asked, the answer, and the generation it was given in. */
  datatype Answer = Answer(asked: string, given: Option<string>, generation: nat)

  /** A set being replaced while it answers. Sets are built outside the lock and
      swapped in whole, each at most once, in any order; the generations in force so
      far are recorded. */
  datatype Serving = Serving(
    built: map<nat, (seq<string>, map<string, string>)>,
    nextBuild: nat,
    byKey: map<string, string>,
    generations: seq<seq<string>>,
    answers: seq<Answer>)

  datatype Action = Prepare(types: seq<string>) | Swap(build: nat) | Ask(t: string)

  predicate Init(s: Serving) {
    |s.generations| == 1 && s.byKey == Build(s.generations[0]) && s.built == map[] && s.answers == []
  }

  predicate Enabled(s: Serving, a: Action) {
    s.generations != [] && (a.Swap? ==> a.build in s.built)
  }

  function Step(s: Serving, a: Action): Serving
    requires Enabled(s, a)
  {
    match a
    case Prepare(types) =>
      s.(built := s.built[s.nextBuild := (types, Build(types))], nextBuild := s.nextBuild + 1)
    case Swap(build) =>
      s.(byKey := s.built[build].1, generations := s.generations + [s.built[build].0], built := s.built - {build})
    case Ask(t) =>
      s.(answers := s.answers + [Answer(t, Resolve(s.byKey, t), |s.generations| - 1)])
  }

  ghost predicate IsRun(states: seq<Serving>, actions: seq<Action>) {
    && |states| == |actions| + 1 && Init(states[0])
    && forall i :: 0 <= i < |actions| ==> Enabled(states[i], actions[i]) && states[i + 1] == Step(states[i], actions[i])
  }

  /** Each answer is the one its generation gives, and generations never go back. */
  predicate AnswersOk(generations: seq<seq<string>>, answers: seq<Answer>) {
    && (forall a <- answers ::
          a.generation < |generations| && a.given == Resolve(Build(generations[a.generation]), a.asked))
    && (forall i, j :: 0 <= i < j < |answers| ==> answers[i].generation <= answers[j].generation)
  }

  predicate ServingOk(s: Serving) {
    && s.generations != [] && s.byKey == Build(s.generations[|s.generations| - 1])
    && (forall b <- s.built :: s.built[b].1 == Build(s.built[b].0))
    && AnswersOk(s.generations, s.answers)
  }

  lemma StepKeeps(s: Serving, a: Action)
    requires Enabled(s, a) && ServingOk(s)
    ensures ServingOk(Step(s, a))
  {
    hide Build, Resolve;
  }

  /** In any interleaving every answer comes whole from one generation, the one in
      force when it was given, and what is in force is always the last swapped in. */
  lemma {:induction false} AnswersComeFromOneGeneration(states: seq<Serving>, actions: seq<Action>, n: nat)
    requires IsRun(states, actions) && n < |states|
    ensures ServingOk(states[n])
  {
    hide Build, Resolve, Enabled, Step;
    if n > 0 {
      AnswersComeFromOneGeneration(states, actions, n - 1);
      StepKeeps(states[n - 1], actions[n - 1]);
    }
  }

  /** Asking again for a spelling that was given changes nothing while the same
      generation is in force. */
  lemma SpellingsSettle(states: seq<Serving>, actions: seq<Action>, n: nat, a: Answer, b: Answer)
    requires IsRun(states, actions) && n < |states| && a in states[n].answers && b in states[n].answers
    requires a.given.Some? && b.asked == a.given.value && b.generation == a.generation
    ensures b.given == a.given
  {
    AnswersComeFromOneGeneration(states, actions, n);
    ResolvedSettles(states[n].generations[a.generation], a.asked);
  }

  class TypeSet {
    var byKey: map<string, string>

    /** Every generation the set has had, oldest first. */
    ghost var generations: seq<seq<string>>

    ghost predicate Valid()
      reads this
    {
      generations != [] && byKey == Build(generations[|generations| - 1])
    }

    constructor (types: seq<string>)
      ensures Valid() && generations == [types]
    {
      byKey := Build([]);
      generations := [[]];
      new;
      Replace(types);
      generations := [types];
    }

    /** Builds the new set outside the lock and swaps it in whole. */
    method Replace(types: seq<string>)
      requires Valid()
      modifies this
      ensures Valid() && byKey == Build(types)
      ensures generations == old(generations) + [types]
    {
      var built: map<string, string> := map[];
      for i := 0 to |types|
        invariant built == Build(types[..i])
      {
        assert types[..i + 1][..i] == types[..i];
        var key := TypeKey(types[i]);
        if key != "" {
          built := built[key := Trim(types[i])];
        }
      }
      assert types[..|types|] == types;
      byKey := built;
      generations := generations + [types];
    }

    /** The answer comes whole from the latest generation. */
    method Canonical(t: string) returns (spelling: string, ok: bool)
      requires Valid()
      ensures ok <==> Resolve(Build(generations[|generations| - 1]), t).Some?
      ensures ok ==> Resolve(Build(generations[|generations| - 1]), t) == Some(spelling)
    {
      var key := TypeKey(t);
      if key == "" || key !in byKey {
        return "", false;
      }
      return byKey[key], true;
    }
  }
}
