/** Passes of the relay's code as stretches of a run, and what can still be delivered
    from any state of any run. */
module Continuation {
  import opened Text
  import opened Calendar
  import opened Rows
  import opened Outbox
  import opened Protocol
  import opened IngestProofs
  import opened RelayProofs
  import opened Guarantees
  import opened Draining

  // ---- going on with a run ----

  function Last(states: seq<System>): System
    requires states != []
  {
    states[|states| - 1]
  }

  /** A run that goes on from another. */
  ghost predicate GoesOn(states: seq<System>, actions: seq<Action>, states': seq<System>, actions': seq<Action>) {
    IsRun(states', actions') && states != [] && states <= states' && actions <= actions'
  }

  lemma HasLast(states: seq<System>, actions: seq<Action>, states': seq<System>, actions': seq<Action>)
    requires GoesOn(states, actions, states', actions')
    ensures states' != []
  {
  }

  lemma OneMore(states: seq<System>, actions: seq<Action>, states': seq<System>, actions': seq<Action>, a: Action)
    requires GoesOn(states, actions, states', actions') && Enabled(Last(states'), a)
    ensures GoesOn(states, actions, states' + [Step(Last(states'), a)], actions' + [a])
  {
    hide Enabled, Step, Init;
  }

  // ---- a pass ----

  /** What any step asks of the state; no relay action changes it. */
  predicate Sound(s: System) {
    && CallsNumbered(s.calls) && s.calls.memory.byKey.Keys == s.calls.memory.fingerprints.Keys
    && Usable(s.relays.options) && s.relays.passes == map[]
  }

  /** The deliveries of the given rows by one pass. */
  function Logged(p: nat, events: map<nat, EventRow>, ids: seq<nat>): (log: seq<Delivery>)
    requires forall id <- ids :: id in events
    ensures |log| == |ids| && forall i :: 0 <= i < |ids| ==> log[i] == Delivery(p, ids[i], events[ids[i]].event)
  {
    seq(|ids|, i requires 0 <= i < |ids| => Delivery(p, ids[i], events[ids[i]].event))
  }

  /** What a pass is like when it has worked through i of its events: its writes over
      the table are those of the code. */
  predicate WorkedThrough(
    o: RelayOptions, events: map<nat, EventRow>, now: Instant, pass: Pass, ids: seq<nat>, i: nat, replies: Replies)
    requires Usable(o) && (forall id <- ids :: id in events) && i <= |ids|
  {
    && pass.start == now && pass.claimed == ids && pass.done == i
    && (forall id <- ids :: id in pass.seen && pass.seen[id] == events[id])
    && events + pass.writes == Applied(o, events, ids[..i], now, replies)
  }

  /** What a pass begun from s leaves alone, and what it has delivered. */
  predicate Delivering(s: System, t: System, ids: seq<nat>, published: nat, replies: Replies)
    requires (forall id <- ids :: id in s.db.events) && published <= |ids|
  {
    && t.db == s.db && t.calls == s.calls && t.clock == s.clock && t.relays.options == s.relays.options
    && t.relays.log == s.relays.log + Logged(s.relays.nextPass, s.db.events, Taken(ids[..published], replies))
  }

  /** The only pass begun from s, with its transaction, its stage and its work. */
  predicate InPass(
    s: System, t: System, stage: Stage, ids: seq<nat>, i: nat, published: nat, replies: Replies)
    requires Usable(s.relays.options) && (forall id <- ids :: id in s.db.events) && i <= |ids| && published <= |ids|
  {
    var p := s.relays.nextPass;
    && Delivering(s, t, ids, published, replies)
    && t.relays.passes.Keys == {p} && t.relays.passes[p].stage == stage
    && WorkedThrough(s.relays.options, s.db.events, s.clock, t.relays.passes[p], ids, i, replies)
  }

  /** The pass begun from s once its transaction is gone. */
  predicate OutOfPass(s: System, t: System, ids: seq<nat>, i: nat, replies: Replies)
    requires (forall id <- ids :: id in s.db.events) && i <= |ids|
  {
    var p := s.relays.nextPass;
    && Delivering(s, t, ids, i, replies)
    && t.relays.passes == map[] && p in t.relays.gone
    && t.relays.gone[p].claimed == ids && t.relays.gone[p].done == i
    && forall id <- ids :: id in t.relays.gone[p].seen && t.relays.gone[p].seen[id] == s.db.events[id]
  }

  /** What the publisher is asked, and what it answers. */
  function ToldOf(reply: Option<string>): Stage {
    match reply
    case None => Told(true, "")
    case Some(error) => Told(false, error)
  }

  lemma PublishesNext(s: System, t: System, ids: seq<nat>, i: nat, replies: Replies)
    returns (a: Action, u: System)
    requires Sound(s) && (forall id <- ids :: id in s.db.events) && i < |ids|
    requires InPass(s, t, Ready, ids, i, i, replies)
    ensures Enabled(t, a) && u == Step(t, a)
    ensures InPass(s, u, ToldOf(Next(Later(replies, i))), ids, i, i + 1, replies)
  {
    var stage := ToldOf(Next(Later(replies, i)));
    hide Delay, Applied, Taken, Later;
    hide BeginCall, InsertRow, QueueEvent, SelectExisting, CommitCall, Finish, ClaimRows, MarkCurrent, CommitWrites;
    TakenStep(ids[..i], ids[i], replies);
    assert ids[..i + 1] == ids[..i] + [ids[i]];
    a := Publish(s.relays.nextPass, stage.delivered, stage.error);
    u := Step(t, a);
  }

  /** Until its turn comes a claimed row is as it was. */
  lemma UntouchedYet(o: RelayOptions, events: map<nat, EventRow>, ids: seq<nat>, i: nat, now: Instant, replies: Replies)
    requires Usable(o) && Increasing(ids) && i < |ids| && forall id <- ids :: id in events
    ensures Applied(o, events, ids[..i], now, replies)[ids[i]] == events[ids[i]]
  {
    hide Applied, Taken;
    assert forall j :: 0 <= j < i ==> ids[..i][j] == ids[j] < ids[i];
    AppliedAt(o, events, ids[..i], now, replies, ids[i]);
  }

  lemma MarkTaken(u: System, p: nat)
    requires CanStep(u) && AtEvent(u.relays.passes, p) && u.relays.passes[p].stage.Told?
    requires u.relays.passes[p].claimed[u.relays.passes[p].done] in u.db.events
    ensures Enabled(u, Mark(p))
    ensures Step(u, Mark(p)) == u.(relays := u.relays.(passes := u.relays.passes[p := MarkCurrent(u, p)]))
  {
  }

  /** A mark over the writes so far is the code's over the table so far. */
  lemma MarkedWorksOn(u: System, p: nat, ids: seq<nat>, i: nat, replies: Replies)
    requires CanStep(u) && Increasing(ids) && (forall id <- ids :: id in u.db.events)
    requires i < |ids| && p in u.relays.passes
    requires WorkedThrough(u.relays.options, u.db.events, u.clock, u.relays.passes[p], ids, i, replies)
    requires u.relays.passes[p].stage == ToldOf(Next(Later(replies, i)))
    ensures var v := MarkCurrent(u, p);
      v.stage == Ready && WorkedThrough(u.relays.options, u.db.events, u.clock, v, ids, i + 1, replies)
  {
    hide Delay, Applied, Taken, Later, Next, Increasing;
    AppliedStep(u.relays.options, u.db.events, ids[..i], ids[i], u.clock, replies);
    UntouchedYet(u.relays.options, u.db.events, ids, i, u.clock, replies);
    assert ids[..i + 1] == ids[..i] + [ids[i]];
    var before, after := u.relays.passes[p].writes, MarkCurrent(u, p).writes;
    var w := Written(u.relays.options, u.db.events[ids[i]], u.clock, Next(Later(replies, i)));
    assert after == before[ids[i] := w];
    assert u.db.events + after == (u.db.events + before)[ids[i] := w];
  }

  lemma MarksNext(s: System, u: System, ids: seq<nat>, i: nat, replies: Replies)
    returns (a: Action, v: System)
    requires Sound(s) && Increasing(ids) && (forall id <- ids :: id in s.db.events) && i < |ids|
    requires InPass(s, u, ToldOf(Next(Later(replies, i))), ids, i, i + 1, replies)
    ensures Enabled(u, a) && v == Step(u, a)
    ensures InPass(s, v, Ready, ids, i + 1, i + 1, replies)
  {
    hide Enabled, Step, Increasing, Logged, Taken, Next, Later;
    a := Mark(s.relays.nextPass);
    MarkedWorksOn(u, s.relays.nextPass, ids, i, replies);
    MarkTaken(u, s.relays.nextPass);
    v := Step(u, a);
  }

  lemma LoseTaken(t: System, p: nat)
    requires CanStep(t) && p in t.relays.passes
    ensures Enabled(t, LosePass(p)) && Step(t, LosePass(p)) == t.(relays := LoseTransaction(t.relays, p))
  {
  }

  /** The transaction is lost between two events, or at the commit. */
  lemma LosesNow(s: System, t: System, ids: seq<nat>, i: nat, replies: Replies) returns (u: System)
    requires Sound(s) && (forall id <- ids :: id in s.db.events) && i <= |ids|
    requires InPass(s, t, Ready, ids, i, i, replies)
    ensures Enabled(t, LosePass(s.relays.nextPass)) && u == Step(t, LosePass(s.relays.nextPass))
    ensures OutOfPass(s, u, ids, i, replies)
  {
    hide Enabled, Step, Logged, Taken, Applied;
    LoseTaken(t, s.relays.nextPass);
    u := Step(t, LosePass(s.relays.nextPass));
    assert u.relays.passes == map[];
  }

  /** The transaction is lost with a mark that fails. */
  lemma MarkFails(s: System, t: System, stage: Stage, ids: seq<nat>, i: nat, replies: Replies) returns (u: System)
    requires Sound(s) && (forall id <- ids :: id in s.db.events) && i < |ids| && stage.Told?
    requires InPass(s, t, stage, ids, i, i + 1, replies)
    ensures Enabled(t, LosePass(s.relays.nextPass)) && u == Step(t, LosePass(s.relays.nextPass))
    ensures OutOfPass(s, u, ids, i + 1, replies)
  {
    hide Enabled, Step, Logged, Taken, Applied;
    LoseTaken(t, s.relays.nextPass);
    u := Step(t, LosePass(s.relays.nextPass));
    assert u.relays.passes == map[];
  }

  lemma LateTaken(t: System, p: nat, delivered: bool)
    requires CanStep(t) && AtEvent(t.relays.gone, p)
    ensures Enabled(t, PublishLate(p, delivered))
    ensures Step(t, PublishLate(p, delivered)) == t.(relays := PublishWithout(t.relays, p, delivered))
  {
  }

  /** The loop goes on without the transaction. */
  lemma PublishesLate(s: System, t: System, ids: seq<nat>, i: nat, replies: Replies)
    returns (a: Action, u: System)
    requires Sound(s) && (forall id <- ids :: id in s.db.events) && i < |ids| && OutOfPass(s, t, ids, i, replies)
    ensures Enabled(t, a) && u == Step(t, a) && OutOfPass(s, u, ids, i + 1, replies)
  {
    hide Enabled, Step, Taken, Later;
    TakenStep(ids[..i], ids[i], replies);
    assert ids[..i + 1] == ids[..i] + [ids[i]];
    var delivered := Next(Later(replies, i)).None?;
    a := PublishLate(s.relays.nextPass, delivered);
    LateTaken(t, s.relays.nextPass, delivered);
    u := Step(t, a);
  }

  /** The rows a pass beginning now would claim, no other being open. */
  function DueNow(s: System): seq<nat>
    requires Usable(s.relays.options)
  {
    ClaimFrom(s.db.events, {}, s.clock, 0, s.db.nextSerial, s.relays.options.batchSize)
  }

  lemma Begins(s: System, replies: Replies) returns (t: System, u: System)
    requires Sound(s)
    ensures Enabled(s, BeginPass) && t == Step(s, BeginPass)
    ensures Enabled(t, Claim(s.relays.nextPass)) && u == Step(t, Claim(s.relays.nextPass))
    ensures Increasing(DueNow(s)) && (forall id <- DueNow(s) :: id in s.db.events)
    ensures InPass(s, u, Ready, DueNow(s), 0, 0, replies)
  {
    var (p, ids) := (s.relays.nextPass, DueNow(s));
    ClaimIsIncreasing(s.db.events, {}, s.clock, 0, s.db.nextSerial, s.relays.options.batchSize);
    ClaimIsClaimable(s.db.events, {}, s.clock, 0, s.db.nextSerial, s.relays.options.batchSize);
    EmptyPass(s.relays.options, s.db.events, s.clock, replies);
    hide ClaimFrom, Applied, Taken, Due, Delay, Increasing;
    hide BeginCall, InsertRow, QueueEvent, SelectExisting, CommitCall, Finish, PublishNext, MarkCurrent, CommitWrites;
    t := Step(s, BeginPass);
    assert Locked(t.relays) == {};
    hide Locked;
    u := Step(t, Claim(p));
    assert ids[..0] == [] && u.relays.passes[p].claimed == ids;
    assert s.db.events + map[] == s.db.events;
  }

  /** How a pass of the code ends: it commits, or finds nothing to do; it fails before
      its claim; or it loses its transaction at the given mark, the commit counted as
      the one after the last, and publishes the rest all the same. */
  datatype Ending = Commits | FailsEarly | Fails(at: nat)

  /** The pass over: its marks are in the table if it commits, and what it published is
      in the log either way. */
  predicate Passed(s: System, t: System, replies: Replies, ending: Ending)
    requires Usable(s.relays.options) && forall id <- DueNow(s) :: id in s.db.events
  {
    var (o, ids) := (s.relays.options, DueNow(s));
    && t.calls == s.calls && t.clock == s.clock && t.relays.options == o && t.relays.passes == map[]
    && t.relays.log == s.relays.log
         + (if ending.FailsEarly? then [] else Logged(s.relays.nextPass, s.db.events, Taken(ids, replies)))
    && t.db == s.db.(events :=
         if ending.Commits? then Applied(o, s.db.events, ids, s.clock, replies) else s.db.events)
  }

  lemma EndTaken(t: System, p: nat) returns (a: Action)
    requires CanStep(t) && p in t.relays.passes && t.relays.passes[p].stage.Ready?
    requires t.relays.passes[p].done == |t.relays.passes[p].claimed|
    ensures Enabled(t, a)
    ensures var u := Step(t, a);
      && u.calls == t.calls && u.clock == t.clock && u.relays.options == t.relays.options
      && u.relays.log == t.relays.log
      && u.relays.passes == t.relays.passes - {p}
      && u.db == t.db.(events :=
           if t.relays.passes[p].claimed == [] then t.db.events else t.db.events + t.relays.passes[p].writes)
  {
    a := if t.relays.passes[p].claimed == [] then EndPass(p) else CommitPass(p);
  }

  lemma Ends(s: System, t: System, replies: Replies) returns (a: Action, u: System)
    requires Sound(s) && (forall id <- DueNow(s) :: id in s.db.events)
    requires InPass(s, t, Ready, DueNow(s), |DueNow(s)|, |DueNow(s)|, replies)
    ensures Enabled(t, a) && u == Step(t, a) && Passed(s, u, replies, Commits)
  {
    hide Applied, Taken, DueNow, Logged, Enabled, Step;
    var (p, ids) := (s.relays.nextPass, DueNow(s));
    EmptyPass(s.relays.options, s.db.events, s.clock, replies);
    assert ids[..|ids|] == ids;
    a := EndTaken(t, p);
    u := Step(t, a);
    assert u.relays.passes == map[];
  }

  /** Working on with the transaction, up to the given event. */
  lemma WorksThrough(
    states: seq<System>, actions: seq<Action>, states': seq<System>, actions': seq<Action>,
    s: System, ids: seq<nat>, i: nat, to: nat, replies: Replies)
    returns (states'': seq<System>, actions'': seq<Action>)
    requires GoesOn(states, actions, states', actions')
    requires Sound(s) && Increasing(ids) && (forall id <- ids :: id in s.db.events) && i <= to <= |ids|
    requires InPass(s, Last(states'), Ready, ids, i, i, replies)
    ensures GoesOn(states, actions, states'', actions'')
    ensures InPass(s, Last(states''), Ready, ids, to, to, replies)
    decreases |ids| - i
  {
    hide InPass, Increasing, Enabled, Step, Sound, Init;
    states'', actions'' := states', actions';
    if i < to {
      var a, u := PublishesNext(s, Last(states'), ids, i, replies);
      OneMore(states, actions, states', actions', a);
      var b, v := MarksNext(s, u, ids, i, replies);
      OneMore(states, actions, states' + [u], actions' + [a], b);
      states'', actions'' := WorksThrough(
        states, actions, states' + [u] + [v], actions' + [a] + [b], s, ids, i + 1, to, replies);
    }
  }

  /** Working on without it, to the end. */
  lemma WorksOnWithout(
    states: seq<System>, actions: seq<Action>, states': seq<System>, actions': seq<Action>,
    s: System, ids: seq<nat>, i: nat, replies: Replies)
    returns (states'': seq<System>, actions'': seq<Action>)
    requires GoesOn(states, actions, states', actions')
    requires Sound(s) && (forall id <- ids :: id in s.db.events) && i <= |ids|
    requires OutOfPass(s, Last(states'), ids, i, replies)
    ensures GoesOn(states, actions, states'', actions'')
    ensures OutOfPass(s, Last(states''), ids, |ids|, replies)
    decreases |ids| - i
  {
    hide OutOfPass, Enabled, Step, Sound, Init;
    states'', actions'' := states', actions';
    if i < |ids| {
      var a, u := PublishesLate(s, Last(states'), ids, i, replies);
      OneMore(states, actions, states', actions', a);
      states'', actions'' := WorksOnWithout(
        states, actions, states' + [u], actions' + [a], s, ids, i + 1, replies);
    }
  }

  lemma FailedHasPassed(s: System, t: System, ids: seq<nat>, replies: Replies, at: nat)
    requires Sound(s) && ids == DueNow(s) && (forall id <- ids :: id in s.db.events)
    requires OutOfPass(s, t, ids, |ids|, replies)
    ensures Passed(s, t, replies, Fails(at))
  {
    hide DueNow, Taken, Logged, Applied;
    assert ids[..|ids|] == ids;
  }

  /** A claim made, the transaction is lost at the given mark or at the commit. */
  lemma FailsAt(
    states: seq<System>, actions: seq<Action>, states': seq<System>, actions': seq<Action>,
    s: System, ids: seq<nat>, at: nat, replies: Replies)
    returns (states'': seq<System>, actions'': seq<Action>)
    requires GoesOn(states, actions, states', actions')
    requires Sound(s) && Increasing(ids) && (forall id <- ids :: id in s.db.events) && at <= |ids|
    requires InPass(s, Last(states'), Ready, ids, 0, 0, replies)
    ensures GoesOn(states, actions, states'', actions'')
    ensures OutOfPass(s, Last(states''), ids, |ids|, replies)
  {
    hide InPass, OutOfPass, Increasing, Enabled, Step, Sound, Init, GoesOn;
    states'', actions'' := WorksThrough(states, actions, states', actions', s, ids, 0, at, replies);
    HasLast(states, actions, states'', actions'');
    var lose := LosePass(s.relays.nextPass);
    if at == |ids| {
      var u := LosesNow(s, Last(states''), ids, at, replies);
      OneMore(states, actions, states'', actions'', lose);
      states'', actions'' := states'' + [u], actions'' + [lose];
    } else {
      var a, u := PublishesNext(s, Last(states''), ids, at, replies);
      OneMore(states, actions, states'', actions'', a);
      var v := MarkFails(s, u, ToldOf(Next(Later(replies, at))), ids, at, replies);
      OneMore(states, actions, states'' + [u], actions'' + [a], lose);
      states'', actions'' := WorksOnWithout(
        states, actions, states'' + [u] + [v], actions'' + [a] + [lose], s, ids, at + 1, replies);
    }
  }

  /** A pass whose claim fails, or that is lost before it. */
  lemma FailsBeforeClaim(s: System, replies: Replies) returns (t: System, u: System)
    requires Sound(s) && forall id <- DueNow(s) :: id in s.db.events
    ensures Enabled(s, BeginPass) && t == Step(s, BeginPass)
    ensures Enabled(t, LosePass(s.relays.nextPass)) && u == Step(t, LosePass(s.relays.nextPass))
    ensures Passed(s, u, replies, FailsEarly)
  {
    hide DueNow, Taken, Applied, Logged;
    hide BeginCall, InsertRow, QueueEvent, SelectExisting, CommitCall, Finish, PublishNext, MarkCurrent, CommitWrites;
    t := Step(s, BeginPass);
    u := Step(t, LosePass(s.relays.nextPass));
    assert u.relays.passes == map[];
  }

  /** Any run with no pass open goes on with a pass of the code: it claims, publishes
      and marks what `Relay.RunOnce` does, whatever the publisher answers and wherever
      it fails, and leaves the table and the log as `RunOnce` leaves them. */
  lemma RunGoesOnWithAPass(
    states: seq<System>, actions: seq<Action>, states': seq<System>, actions': seq<Action>,
    replies: Replies, ending: Ending)
    returns (states'': seq<System>, actions'': seq<Action>)
    requires GoesOn(states, actions, states', actions') && Sound(Last(states'))
    requires ending.Fails? ==> ending.at <= |DueNow(Last(states'))|
    ensures GoesOn(states, actions, states'', actions'')
    ensures (forall id <- DueNow(Last(states')) :: id in Last(states').db.events)
      && Passed(Last(states'), Last(states''), replies, ending)
  {
    hide InPass, OutOfPass, Increasing, Enabled, Step, Init, Passed, DueNow;
    var s := Last(states');
    var t, u := Begins(s, replies);
    OneMore(states, actions, states', actions', BeginPass);
    if ending.FailsEarly? {
      var t', v := FailsBeforeClaim(s, replies);
      OneMore(states, actions, states' + [t], actions' + [BeginPass], LosePass(s.relays.nextPass));
      states'', actions'' := states' + [t] + [v], actions' + [BeginPass] + [LosePass(s.relays.nextPass)];
    } else {
      var claim := Claim(s.relays.nextPass);
      OneMore(states, actions, states' + [t], actions' + [BeginPass], claim);
      states'', actions'' := states' + [t] + [u], actions' + [BeginPass] + [claim];
      if ending.Fails? {
        states'', actions'' := FailsAt(states, actions, states'', actions'', s, DueNow(s), ending.at, replies);
        FailedHasPassed(s, Last(states''), DueNow(s), replies, ending.at);
      } else {
        states'', actions'' := WorksThrough(
          states, actions, states'', actions'', s, DueNow(s), 0, |DueNow(s)|, replies);
        var a, v := Ends(s, Last(states''), replies);
        OneMore(states, actions, states'', actions'', a);
        states'', actions'' := states'' + [v], actions'' + [a];
      }
    }
  }

  // ---- nothing is stuck ----

  lemma {:induction false} LosesOpenPasses(
    states: seq<System>, actions: seq<Action>, states': seq<System>, actions': seq<Action>)
    returns (states'': seq<System>, actions'': seq<Action>)
    requires GoesOn(states, actions, states', actions') && CanStep(Last(states'))
    ensures GoesOn(states, actions, states'', actions'') && Sound(Last(states''))
    ensures Last(states'').db == Last(states').db && Last(states'').calls == Last(states').calls
    decreases |Last(states').relays.passes|
  {
    hide GoesOn, Enabled, Step;
    HasLast(states, actions, states', actions');
    states'', actions'' := states', actions';
    var s := Last(states');
    if p :| p in s.relays.passes {
      LosesOne(s, p);
      var t := Step(s, LosePass(p));
      OneMore(states, actions, states', actions', LosePass(p));
      states'', actions'' := LosesOpenPasses(states, actions, states' + [t], actions' + [LosePass(p)]);
    }
  }

  /** What the enabling of any step asks for. */
  predicate CanStep(s: System) {
    && CallsNumbered(s.calls) && s.calls.memory.byKey.Keys == s.calls.memory.fingerprints.Keys
    && Usable(s.relays.options)
  }

  lemma LosesOne(s: System, p: nat)
    requires CanStep(s) && p in s.relays.passes
    ensures Enabled(s, LosePass(p))
    ensures var t := Step(s, LosePass(p));
      CanStep(t) && t.db == s.db && t.calls == s.calls && |t.relays.passes| < |s.relays.passes|
  {
    var t := Step(s, LosePass(p));
    assert t.relays.passes.Keys == s.relays.passes.Keys - {p};
    assert |t.relays.passes.Keys| == |t.relays.passes| && |s.relays.passes.Keys| == |s.relays.passes|;
  }

  lemma Waits(s: System) returns (t: System)
    requires Sound(s)
    ensures var to := Horizon(s.db.events, s.clock, s.db.nextSerial);
      Enabled(s, Tick(to)) && t == Step(s, Tick(to)) && Sound(t) && t == s.(clock := to)
  {
    t := Step(s, Tick(Horizon(s.db.events, s.clock, s.db.nextSerial)));
  }

  predicate Numbered(db: Database) {
    forall id <- db.events :: id < db.nextSerial
  }

  /** A pass over due rows with a willing publisher takes a batch off the queue. */
  lemma PassTakesABatch(s: System, t: System)
    requires Sound(s)
    requires Numbered(s.db)
    requires (forall id <- s.db.events :: s.db.events[id].nextAttemptAt <= s.clock)
    requires Pending(s.db.events, 0, s.db.nextSerial) != []
    requires (forall id <- DueNow(s) :: id in s.db.events) && Passed(s, t, [], Commits)
    ensures Sound(t) && Numbered(t.db) && t.calls == s.calls && t.db.nextSerial == s.db.nextSerial
    ensures t.db.events.Keys == s.db.events.Keys && t.db.transactions == s.db.transactions
    ensures |Pending(t.db.events, 0, t.db.nextSerial)| < |Pending(s.db.events, 0, s.db.nextSerial)|
  {
    BatchShortens(s.relays.options, s.db.events, s.db.nextSerial, s.clock);
    hide Pending, ClaimFrom, Applied, Taken, Delay, Logged;
  }

  /** The same on the table alone. */
  lemma BatchShortens(o: RelayOptions, events: map<nat, EventRow>, upTo: nat, now: Instant)
    requires Usable(o) && forall id <- events :: id < upTo && events[id].nextAttemptAt <= now
    requires Pending(events, 0, upTo) != []
    ensures var ids := ClaimFrom(events, {}, now, 0, upTo, o.batchSize);
      && (forall id <- ids :: id in events)
      && |Pending(Applied(o, events, ids, now, []), 0, upTo)| < |Pending(events, 0, upTo)|
  {
    hide Pending, ClaimFrom, Applied, Taken, Delay;
    PassShortens(o, events, upTo, now, []);
    assert Later([], |ClaimFrom(events, {}, now, 0, upTo, o.batchSize)|) == [];
  }

  lemma {:induction false} DrainsOn(
    states: seq<System>, actions: seq<Action>, states': seq<System>, actions': seq<Action>)
    returns (states'': seq<System>, actions'': seq<Action>)
    requires GoesOn(states, actions, states', actions') && Sound(Last(states')) && Numbered(Last(states').db)
    ensures GoesOn(states, actions, states'', actions'') && Last(states'').calls == Last(states').calls
    ensures var (before, after) := (Last(states').db, Last(states'').db);
      && after.events.Keys == before.events.Keys && after.transactions == before.transactions
      && forall id <- after.events :: after.events[id].publishedAt.Some?
    decreases |Pending(Last(states').db.events, 0, Last(states').db.nextSerial)|
  {
    hide GoesOn, Enabled, Step, Pending, Passed;
    HasLast(states, actions, states', actions');
    var s := Last(states');
    QueueHolds(s.db.events, 0, s.db.nextSerial);
    states'', actions'' := states', actions';
    if Pending(s.db.events, 0, s.db.nextSerial) != [] {
      var t := Waits(s);
      OneMore(states, actions, states', actions', Tick(t.clock));
      var later, taken := RunGoesOnWithAPass(states, actions, states' + [t], actions' + [Tick(t.clock)], [], Commits);
      HasLast(states, actions, later, taken);
      PassTakesABatch(t, Last(later));
      states'', actions'' := DrainsOn(states, actions, later, taken);
    }
  }

  /** From every state of every run, whatever calls and passes are open, some way of
      going on publishes every event there is, with no transaction or event lost. */
  lemma EveryEventCanBePublished(states: seq<System>, actions: seq<Action>)
    returns (states': seq<System>, actions': seq<Action>)
    requires IsRun(states, actions)
    ensures GoesOn(states, actions, states', actions') && Last(states').calls == Last(states).calls
    ensures var (before, after) := (Last(states).db, Last(states').db);
      && after.events.Keys == before.events.Keys && after.transactions == before.transactions
      && forall id <- after.events :: after.events[id].publishedAt.Some?
  {
    EveryStateKeeps(states, actions, |states| - 1);
    InvNumbers(Last(states));
    RunStarts(states, actions);
    hide IsRun, GoesOn, Inv, Sound, CanStep;
    var idle, lost := LosesOpenPasses(states, actions, states, actions);
    states', actions' := DrainsOn(states, actions, idle, lost);
  }

  lemma RunStarts(states: seq<System>, actions: seq<Action>)
    requires IsRun(states, actions)
    ensures GoesOn(states, actions, states, actions)
  {
  }

  lemma InvNumbers(s: System)
    requires Inv(s)
    ensures CanStep(s) && Numbered(s.db)
  {
    hide HistoryOk, SubmittedOk, IdsOk, PhaseOk, RepliesOk, OneEventEach, QueuedAreFresh;
    hide PassesOk, ClaimsExclude, CountsOk, LogOk, TriesOk, NewTransactionReceived, KeyOfEvent;
  }
}
