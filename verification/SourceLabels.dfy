/** The bounded set of source labels, read under one lock and grown under another,
    and the counters it keeps bounded. Characters stand for bytes. */
module SourceLabels {
  const MAX_LENGTH := 64
  const OTHER := "other"
  const UNKNOWN := "unknown"

  function Truncated(source: string): string {
    if |source| > MAX_LENGTH then source[..MAX_LENGTH] else source
  }

  // ---- concurrent calls ----

  /** Where a call is: before the read lock, between the two locks, holding its
      label, or counted under it. */
  datatype Progress = Entered | Missed | Labelled(name: string) | Recorded(name: string)

  datatype Call = Call(source: string, at: Progress)

  datatype State = State(limit: nat, seen: set<string>, calls: seq<Call>, counters: map<string, nat>)

  datatype Action = Enter(source: string) | Read(call: nat) | Write(call: nat) | Record(call: nat)

  predicate Init(s: State) {
    s.seen == {} && s.calls == [] && s.counters == map[]
  }

  predicate Enabled(s: State, a: Action) {
    match a
    case Enter(_) => true
    case Read(c) => c < |s.calls| && s.calls[c].at.Entered?
    case Write(c) => c < |s.calls| && s.calls[c].at.Missed?
    case Record(c) => c < |s.calls| && s.calls[c].at.Labelled?
  }

  function At(s: State, c: nat, at: Progress): State
    requires c < |s.calls|
  {
    s.(calls := s.calls[c := s.calls[c].(at := at)])
  }

  function Counter(counters: map<string, nat>, name: string): nat {
    if name in counters then counters[name] else 0
  }

  function Step(s: State, a: Action): State
    requires Enabled(s, a)
  {
    match a
    case Enter(source) => s.(calls := s.calls + [Call(source, if source == "" then Labelled(UNKNOWN) else Entered)])
    case Read(c) =>
      var t := Truncated(s.calls[c].source);
      At(s, c, if t in s.seen then Labelled(t) else if |s.seen| >= s.limit then Labelled(OTHER) else Missed)
    case Write(c) =>
      var t := Truncated(s.calls[c].source);
      if t in s.seen then At(s, c, Labelled(t))
      else if |s.seen| >= s.limit then At(s, c, Labelled(OTHER))
      else At(s.(seen := s.seen + {t}), c, Labelled(t))
    case Record(c) =>
      var name := s.calls[c].at.name;
      At(s.(counters := s.counters[name := Counter(s.counters, name) + 1]), c, Recorded(name))
  }

  ghost predicate IsRun(states: seq<State>, actions: seq<Action>) {
    && |states| == |actions| + 1 && Init(states[0])
    && forall i :: 0 <= i < |actions| ==> Enabled(states[i], actions[i]) && states[i + 1] == Step(states[i], actions[i])
  }

  // ---- what every step keeps ----

  /** The label a source has once it has one: itself when tracked, and the overflow
      only when the set is full without it. */
  predicate RightLabel(seen: set<string>, limit: nat, source: string, name: string) {
    if source == "" then name == UNKNOWN
    else if Truncated(source) in seen then name == Truncated(source)
    else name == OTHER && |seen| >= limit
  }

  predicate HasLabel(c: Call) {
    c.at.Labelled? || c.at.Recorded?
  }

  predicate CallsOk(s: State) {
    && |s.seen| <= s.limit
    && forall c <- s.calls ::
      && (HasLabel(c) ==> RightLabel(s.seen, s.limit, c.source, c.at.name))
      && (!HasLabel(c) ==> c.source != "")
  }

  /** How many of the calls were counted under a label. */
  function Count(calls: seq<Call>, name: string): nat {
    if calls == [] then 0
    else Count(calls[..|calls| - 1], name) + (if calls[|calls| - 1].at == Recorded(name) then 1 else 0)
  }

  function RecordedCalls(calls: seq<Call>): nat {
    if calls == [] then 0
    else RecordedCalls(calls[..|calls| - 1]) + (if calls[|calls| - 1].at.Recorded? then 1 else 0)
  }

  lemma {:induction false} CountMoves(calls: seq<Call>, c: nat, at: Progress, name: string)
    requires c < |calls| && !calls[c].at.Recorded?
    ensures var after := calls[c := calls[c].(at := at)];
      && Count(after, name) == Count(calls, name) + (if at == Recorded(name) then 1 else 0)
      && RecordedCalls(after) == RecordedCalls(calls) + (if at.Recorded? then 1 else 0)
  {
    var n, after := |calls| - 1, calls[c := calls[c].(at := at)];
    if c < n {
      CountMoves(calls[..n], c, at, name);
      assert after[..n] == calls[..n][c := calls[c].(at := at)];
    } else {
      assert after[..n] == calls[..n];
    }
  }

  lemma CountEnters(calls: seq<Call>, c: Call, name: string)
    requires !c.at.Recorded?
    ensures Count(calls + [c], name) == Count(calls, name) && RecordedCalls(calls + [c]) == RecordedCalls(calls)
  {
    assert (calls + [c])[..|calls|] == calls;
  }

  ghost predicate CountersOk(s: State) {
    && s.counters.Keys <= s.seen + {OTHER, UNKNOWN}
    && (forall name :: Counter(s.counters, name) == Count(s.calls, name))
    && Total(s.counters) == RecordedCalls(s.calls)
  }

  /** The sum of all counters. */
  ghost function Total(counters: map<string, nat>): nat {
    if counters == map[] then 0
    else
      var name :| name in counters;
      counters[name] + Total(counters - {name})
  }

  lemma {:induction false} TotalWithout(counters: map<string, nat>, name: string)
    requires name in counters
    ensures Total(counters) == counters[name] + Total(counters - {name})
    decreases |counters|
  {
    var first :| first in counters && Total(counters) == counters[first] + Total(counters - {first});
    if first != name {
      TotalWithout(counters - {first}, name);
      TotalWithout(counters - {name}, first);
      assert counters - {first} - {name} == counters - {name} - {first};
    }
  }

  lemma TotalIncrements(counters: map<string, nat>, name: string)
    ensures Total(counters[name := Counter(counters, name) + 1]) == Total(counters) + 1
  {
    var after := counters[name := Counter(counters, name) + 1];
    TotalWithout(after, name);
    if name in counters {
      TotalWithout(counters, name);
      assert after - {name} == counters - {name};
    } else {
      assert after - {name} == counters;
    }
  }

  lemma StepKeeps(s: State, a: Action)
    requires Enabled(s, a) && CallsOk(s)
    ensures CallsOk(Step(s, a)) && s.seen <= Step(s, a).seen && Step(s, a).limit == s.limit
  {
  }

  lemma StepKeepsCounters(s: State, a: Action)
    requires Enabled(s, a) && CallsOk(s) && CountersOk(s)
    ensures CountersOk(Step(s, a))
  {
    hide Total, Count, RecordedCalls, Truncated;
    var after := Step(s, a);
    match a
    case Enter(source) =>
      forall name
        ensures Count(after.calls, name) == Count(s.calls, name)
      {
        CountEnters(s.calls, after.calls[|s.calls|], name);
      }
      CountEnters(s.calls, after.calls[|s.calls|], OTHER);
    case Record(c) =>
      var last := s.calls[c].at.name;
      forall name
        ensures Count(after.calls, name) == Count(s.calls, name) + (if name == last then 1 else 0)
      {
        CountMoves(s.calls, c, after.calls[c].at, name);
      }
      CountMoves(s.calls, c, after.calls[c].at, OTHER);
      TotalIncrements(s.counters, s.calls[c].at.name);
    case Read(c) =>
      forall name
        ensures Count(after.calls, name) == Count(s.calls, name)
      {
        CountMoves(s.calls, c, after.calls[c].at, name);
      }
      CountMoves(s.calls, c, after.calls[c].at, OTHER);
    case Write(c) =>
      forall name
        ensures Count(after.calls, name) == Count(s.calls, name)
      {
        CountMoves(s.calls, c, after.calls[c].at, name);
      }
      CountMoves(s.calls, c, after.calls[c].at, OTHER);
  }

  lemma {:induction false} EveryStateKeeps(states: seq<State>, actions: seq<Action>, n: nat)
    requires IsRun(states, actions) && n < |states|
    ensures CallsOk(states[n]) && CountersOk(states[n]) && states[n].limit == states[0].limit
  {
    hide Enabled, Step;
    if n > 0 {
      EveryStateKeeps(states, actions, n - 1);
      StepKeeps(states[n - 1], actions[n - 1]);
      StepKeepsCounters(states[n - 1], actions[n - 1]);
    }
  }

  // ---- every run ----

  predicate CallsGrew(calls: seq<Call>, after: seq<Call>) {
    && |calls| <= |after|
    && forall c :: 0 <= c < |calls| ==>
         && after[c].source == calls[c].source
         && (HasLabel(calls[c]) ==> HasLabel(after[c]) && after[c].at.name == calls[c].at.name)
  }

  lemma StepKeepsLabels(s: State, a: Action)
    requires Enabled(s, a)
    ensures CallsGrew(s.calls, Step(s, a).calls)
  {
  }

  /** The tracked set only grows, never beyond the limit; and a call that has its
      label keeps it. */
  lemma {:induction false} TrackedOnlyGrows(states: seq<State>, actions: seq<Action>, m: nat, n: nat)
    requires IsRun(states, actions) && m <= n < |states|
    ensures states[m].seen <= states[n].seen && |states[n].seen| <= states[0].limit
    ensures CallsGrew(states[m].calls, states[n].calls)
    decreases n - m
  {
    hide Enabled, Step;
    EveryStateKeeps(states, actions, n);
    if m < n {
      TrackedOnlyGrows(states, actions, m, n - 1);
      EveryStateKeeps(states, actions, n - 1);
      StepKeeps(states[n - 1], actions[n - 1]);
      StepKeepsLabels(states[n - 1], actions[n - 1]);
    }
  }

  /** Two sources that agree on their first 64 characters. */
  predicate Alike(a: string, b: string) {
    if |a| < 64 || |b| < 64 then a == b else a[..64] == b[..64]
  }

  lemma TruncatedDecides(a: string, b: string)
    ensures Truncated(a) == Truncated(b) <==> Alike(a, b)
    ensures Truncated(a) <= a && |Truncated(a)| == if |a| < 64 then |a| else 64
  {
  }

  /** What a label tells of a source: it is the first 64 characters of the source, which
      are tracked, or the overflow, when the set is full without them. */
  predicate Tells(seen: set<string>, limit: nat, source: string, name: string) {
    if source == "" then name == "unknown"
    else
      || (name in seen && name <= source && |name| == if |source| < 64 then |source| else 64)
      || (name == "other" && |seen| == limit && forall t <- seen :: |t| <= 64 ==> !Alike(t, source))
  }

  lemma RightLabelTells(seen: set<string>, limit: nat, source: string, name: string)
    requires RightLabel(seen, limit, source, name) && |seen| <= limit
    ensures Tells(seen, limit, source, name)
  {
    TruncatedDecides(source, source);
    hide Truncated, Alike;
    forall t <- seen | |t| <= 64 && Alike(t, source)
      ensures t == Truncated(source)
    {
      TruncatedDecides(t, source);
    }
  }

  /** Over a whole run, all calls for sources alike get the same label: the first 64
      characters of the source or, once the set is full without them, the overflow. */
  lemma LabelsNeverDisagree(states: seq<State>, actions: seq<Action>, m: nat, n: nat, c: Call, d: Call)
    requires IsRun(states, actions) && m <= n < |states|
    requires c in states[m].calls && d in states[n].calls && HasLabel(c) && HasLabel(d)
    requires Alike(c.source, d.source)
    ensures c.at.name == d.at.name && Tells(states[n].seen, states[0].limit, d.source, d.at.name)
  {
    EveryStateKeeps(states, actions, n);
    TrackedOnlyGrows(states, actions, m, n);
    TruncatedDecides(c.source, d.source);
    RightLabelTells(states[n].seen, states[0].limit, d.source, d.at.name);
    var i :| 0 <= i < |states[m].calls| && states[m].calls[i] == c;
    assert states[n].calls[i] in states[n].calls;
    hide Tells, Truncated, IsRun, CountersOk;
    assert c.source == "" <==> d.source == "" by {
      hide *;
      assert Alike(c.source, d.source);
      AlikeEmpty(c.source, d.source);
    }
  }

  lemma AlikeEmpty(a: string, b: string)
    requires Alike(a, b)
    ensures a == "" <==> b == ""
  {
  }

  /** Counted calls for a source, those counted as overflow, and those without one. */
  function Own(calls: seq<Call>, source: string): nat {
    if calls == [] then 0
    else
      var c := calls[|calls| - 1];
      Own(calls[..|calls| - 1], source)
      + (if c.at.Recorded? && c.source != "" && Truncated(c.source) == source then 1 else 0)
  }

  function Overflowed(calls: seq<Call>, seen: set<string>): nat {
    if calls == [] then 0
    else
      var c := calls[|calls| - 1];
      Overflowed(calls[..|calls| - 1], seen)
      + (if c.at.Recorded? && c.source != "" && Truncated(c.source) !in seen then 1 else 0)
  }

  function Sourceless(calls: seq<Call>): nat {
    if calls == [] then 0
    else
      var c := calls[|calls| - 1];
      Sourceless(calls[..|calls| - 1]) + (if c.at.Recorded? && c.source == "" then 1 else 0)
  }

  lemma {:induction false} CountSplits(calls: seq<Call>, seen: set<string>, limit: nat, source: string)
    requires forall c <- calls :: HasLabel(c) ==> RightLabel(seen, limit, c.source, c.at.name)
    ensures Count(calls, source) == (if source in seen then Own(calls, source) else 0)
      + (if source == OTHER then Overflowed(calls, seen) else 0) + (if source == UNKNOWN then Sourceless(calls) else 0)
  {
    if calls != [] {
      var n := |calls| - 1;
      CountSplits(calls[..n], seen, limit, source);
      assert calls[n] in calls;
    }
  }

  lemma {:induction false} BoundedCardinality(a: set<string>, b: set<string>)
    requires a <= b
    ensures |a| <= |b|
  {
    if x :| x in a {
      BoundedCardinality(a - {x}, b - {x});
    }
  }

  /** In every state the counters add up to the calls recorded, and there are at
      most two more of them than the limit. Each is known exactly: a tracked source
      counts its own calls, the overflow those of untracked sources, and the unknown
      those without one; only a tracked source named like a catch-all mixes two. */
  lemma CountersAddUp(states: seq<State>, actions: seq<Action>, n: nat, source: string)
    requires IsRun(states, actions) && n < |states|
    ensures var s := states[n];
      && Total(s.counters) == RecordedCalls(s.calls) && |s.counters| <= s.limit + 2
      && Counter(s.counters, source) ==
           (if source in s.seen then Own(s.calls, source) else 0)
         + (if source == OTHER then Overflowed(s.calls, s.seen) else 0)
         + (if source == UNKNOWN then Sourceless(s.calls) else 0)
  {
    hide Total;
    EveryStateKeeps(states, actions, n);
    var s := states[n];
    CountSplits(s.calls, s.seen, s.limit, source);
    BoundedCardinality(s.counters.Keys, s.seen + {OTHER, UNKNOWN});
  }

  predicate Takes(s: State, a: Action, t: State) {
    Enabled(s, a) && t == Step(s, a)
  }

  /** The first call for a source, from an empty set with room for one. */
  lemma CountsTheFirst(source: string) returns (b: State, c: State, d: State, e: State)
    requires source != "" && Truncated(source) == source
    ensures Takes(State(1, {}, [], map[]), Enter(source), b) && Takes(b, Read(0), c)
    ensures Takes(c, Write(0), d) && Takes(d, Record(0), e)
    ensures e == State(1, {source}, [Call(source, Recorded(source))], map[source := 1])
  {
    hide Truncated;
    b := Step(State(1, {}, [], map[]), Enter(source));
    assert b.calls == [Call(source, Entered)];
    c := Step(b, Read(0));
    assert c.calls == [Call(source, Missed)];
    d := Step(c, Write(0));
    assert d.calls == [Call(source, Labelled(source))] && d.seen == {source};
    e := Step(d, Record(0));
  }

  /** A second call, for a source there is no room for. */
  lemma CountsTheOverflow(e: State, source: string) returns (f: State, g: State, h: State)
    requires e == State(1, {OTHER}, [Call(OTHER, Recorded(OTHER))], map[OTHER := 1])
    requires source != "" && Truncated(source) != OTHER
    ensures Takes(e, Enter(source), f) && Takes(f, Read(1), g) && Takes(g, Record(1), h)
    ensures h.calls == [Call(OTHER, Recorded(OTHER)), Call(source, Recorded(OTHER))]
    ensures h.seen == {OTHER} && h.counters == map[OTHER := 2]
  {
    hide Truncated;
    f := Step(e, Enter(source));
    assert f.calls == [Call(OTHER, Recorded(OTHER)), Call(source, Entered)];
    g := Step(f, Read(1));
    assert g.calls == [Call(OTHER, Recorded(OTHER)), Call(source, Labelled(OTHER))];
    h := Step(g, Record(1));
  }

  lemma OneOfTwoIsOwn(calls: seq<Call>, source: string)
    requires calls == [Call(OTHER, Recorded(OTHER)), Call(source, Recorded(OTHER))] && Truncated(source) != OTHER
    ensures Own(calls, OTHER) == 1
  {
    assert calls[..1] == [Call(OTHER, Recorded(OTHER))] && calls[..1][..0] == [];
    assert Own(calls[..1], OTHER) == 1;
  }

  /** A source named like the overflow, tracked before the set is full, counts the
      overflow as well: two calls, one of them its own. */
  lemma ACatchAllNameMixesCounts(source: string) returns (states: seq<State>, actions: seq<Action>)
    requires source != "" && Truncated(source) != OTHER
    ensures IsRun(states, actions)
    ensures var last := states[|states| - 1];
      && OTHER in last.seen && Counter(last.counters, OTHER) == 2 && Own(last.calls, OTHER) == 1
  {
    hide Enabled, Step, Own;
    var a := State(1, {}, [], map[]);
    var b, c, d, e := CountsTheFirst(OTHER);
    var f, g, h := CountsTheOverflow(e, source);
    OneOfTwoIsOwn(h.calls, source);
    states := [a, b, c, d, e, f, g, h];
    actions := [Enter(OTHER), Read(0), Write(0), Record(0), Enter(source), Read(1), Record(1)];
  }

  // ---- the code ----

  class Labels {
    var seen: set<string>
    const limit: nat

    ghost predicate Valid()
      reads this
    {
      |seen| <= limit
    }

    constructor (limit: nat)
      ensures Valid() && seen == {} && this.limit == limit
    {
      seen := {};
      this.limit := limit;
    }

    /** Under the write lock: looks again, and tracks the source if there is room. */
    method Track(source: string) returns (name: string)
      requires Valid() && source != ""
      modifies this
      ensures Valid() && RightLabel(seen, limit, source, name)
      ensures old(seen) <= seen <= old(seen) + {Truncated(source)}
      ensures |old(seen)| >= limit ==> seen == old(seen)
    {
      var t := Truncated(source);
      if t in seen {
        return t;
      }
      if |seen| >= limit {
        return OTHER;
      }
      seen := seen + {t};
      name := t;
    }

    /** Labels a source while other callers track theirs between the two locks. */
    method Label(source: string, meanwhile: seq<string>) returns (name: string)
      requires Valid() && "" !in meanwhile
      modifies this
      ensures Valid() && old(seen) <= seen && RightLabel(seen, limit, source, name)
      ensures meanwhile == [] ==> seen <= old(seen) + {Truncated(source)}
    {
      if source == "" {
        return UNKNOWN;
      }
      var t := Truncated(source);
      var known, full := t in seen, |seen| >= limit;
      for i := 0 to |meanwhile|
        invariant Valid() && old(seen) <= seen && (full ==> seen == old(seen))
        invariant meanwhile == [] ==> seen == old(seen)
      {
        var _ := Track(meanwhile[i]);
      }
      if known {
        return t;
      }
      if full {
        return OTHER;
      }
      name := Track(source);
    }
  }
}
