/** One database across the lives of many sync processes. */
module Lifetimes {
  import opened Wrappers
  import opened Client
  import opened Depths
  import opened Ledgers
  import opened LedgerTheorems
  import opened Ingest
  import opened IngestTheorems
  import opened Writers
  import opened Sync

  /** The steps of one life after another, each begun by a restart. */
  function Joined(lives: seq<seq<Step>>): seq<Step> {
    if lives == [] then [] else Joined(lives[..|lives| - 1]) + ([Restart] + lives[|lives| - 1])
  }

  lemma JoinedNone()
    ensures Joined([]) == []
  {
  }

  lemma JoinedNext(lives: seq<seq<Step>>, life: seq<Step>)
    ensures Joined(lives + [life]) == Joined(lives) + ([Restart] + life)
  {
    assert (lives + [life])[..|lives|] == lives;
  }

  /** The outcomes of the steps are, in order, those of some moments of the script. */
  ghost predicate Lived(steps: seq<Step>, script: seq<Moment>) {
    exists at :: CarriedBy(steps, script, at)
  }

  lemma LivedBy(steps: seq<Step>, script: seq<Moment>, at: seq<nat>)
    requires CarriedBy(steps, script, at)
    ensures Lived(steps, script)
  {
  }

  /** The process does not outlive a write the database refuses. */
  predicate DiesOnFailure(script: seq<Moment>) {
    forall k :: 0 <= k < |script| - 1 ==> script[k].addOk && script[k].flushOk
  }

  lemma CarriedAreAccepted(steps: seq<Step>, script: seq<Moment>, at: seq<nat>)
    requires CarriedBy(steps, script, at) && DiesOnFailure(script)
    ensures forall i :: 0 <= i < |steps| - 1 ==> Accepted(steps[i])
  {
    forall i | 0 <= i < |steps| - 1 ensures Accepted(steps[i]) {
      assert at[i] < at[|steps| - 1] < |script|;
      assert Carries(steps[i], script[at[i]]);
    }
  }

  lemma {:induction false} TallyConcat(w: World, batch: nat, s: Process, y: Tally, xs: seq<Step>, ys: seq<Step>)
    ensures var t, z := Run(w, batch, s, xs), TallyOf(w, batch, s, y, xs);
            && TallyOf(w, batch, s, y, xs + ys) == TallyOf(w, batch, t, z, ys)
            && (Admissible(w, batch, s, y, xs) && Admissible(w, batch, t, z, ys) ==> Admissible(w, batch, s, y, xs + ys))
    decreases |xs|
  {
    hide Do, Tallied, RowCount;
    if xs == [] {
      assert xs + ys == ys;
    } else {
      assert (xs + ys)[0] == xs[0] && (xs + ys)[1..] == xs[1..] + ys;
      TallyConcat(w, batch, Do(w, batch, s, xs[0]).0, Tallied(w, batch, s, y, xs[0]), xs[1..], ys);
    }
  }

  lemma RestartFirst(w: World, batch: nat, s: Process, y: Tally, steps: seq<Step>)
    ensures var t, z := Restarted(s.db), Tally(false, 0, 0, y.committed);
            && Run(w, batch, s, [Restart] + steps) == Run(w, batch, t, steps)
            && TallyOf(w, batch, s, y, [Restart] + steps) == TallyOf(w, batch, t, z, steps)
            && (Admissible(w, batch, t, z, steps) ==> Admissible(w, batch, s, y, [Restart] + steps))
  {
    hide Restarted, RowCount;
    assert ([Restart] + steps)[1..] == steps;
  }

  /** One more life on the database the earlier ones left. */
  lemma OneMoreLife(w: World, batch: nat, before: seq<Step>, life: seq<Step>)
    requires w.Good()
    ensures var s, y := Run(w, batch, Start(w), before), TallyOf(w, batch, Start(w), CLEAN, before);
            var all := before + ([Restart] + life);
            && (y.committed == 0 ==> NoTies(s.db.depths))
            && Run(w, batch, Start(w), all) == Run(w, batch, Restarted(s.db), life)
            && TallyOf(w, batch, Start(w), CLEAN, all).committed >= y.committed
            && (Admissible(w, batch, Start(w), CLEAN, before) && (forall i :: 0 <= i < |life| - 1 ==> Accepted(life[i]))
                ==> Admissible(w, batch, Start(w), CLEAN, all))
  {
    hide Run, TallyOf, Admissible, Holds, World.Good, World.At, NoTies, Start, Restarted, Accepted;
    var s, y := Run(w, batch, Start(w), before), TallyOf(w, batch, Start(w), CLEAN, before);
    RunConcat(w, batch, Start(w), before, [Restart] + life);
    TallyConcat(w, batch, Start(w), CLEAN, before, [Restart] + life);
    RestartFirst(w, batch, s, y, life);
    CommittedGrows(w, batch, s, y, [Restart] + life);
    StartHolds(w, batch);
    var c, p := RunKeeps(w, batch, Start(w), CLEAN, before, 0, 0);
    HoldsCommitted(w, batch, s, y, c, p);
    ReplayHasNoTies(w, c);
    RestartHolds(w, batch, s.db, y.committed, c);
    if forall i :: 0 <= i < |life| - 1 ==> Accepted(life[i]) {
      AcceptedIsAdmissible(w, batch, Restarted(s.db), Tally(false, 0, 0, y.committed), life, c, c);
    }
  }

  lemma Beginning(w: World, batch: nat)
    requires w.Good()
    ensures Run(w, batch, Start(w), []).db == w.opening && Admissible(w, batch, Start(w), CLEAN, [])
  {
    hide World.Good, Start;
    StartHolds(w, batch);
  }

  /** Any number of processes, one after another, on one database: each is started on what the last
      one left, and is cancelled or killed anywhere in its script. As long as no repeated row has been
      committed, the database is that of the run their steps make up; and when no process outlives a
      refused write, it is the one that an uninterrupted process would have written. */
  method Serve(db: Database, commitBatchSize: nat, initialHeight: int, fetchBatchSize: nat, parallelism: nat,
               decode: Decoder, scripts: seq<seq<Moment>>, ghost w: World)
    returns (ghost lives: seq<seq<Step>>)
    requires w.Good() && db.State() == w.opening && fetchBatchSize > 0 && w.decode == decode && Numbered(w.first, w.chain)
    requires w.first == if initialHeight >= 1 then initialHeight else 1
    requires forall i :: 0 <= i < |scripts| ==> Plausible(w, scripts[i])
    modifies db
    ensures |lives| == |scripts| && forall i :: 0 <= i < |lives| ==> Lived(lives[i], scripts[i])
    ensures var batch := AtLeastOne(commitBatchSize);
            TallyOf(w, batch, Start(w), CLEAN, Joined(lives)).committed == 0
            ==> var t := Run(w, batch, Start(w), Joined(lives));
                && db.State() == t.db
                && (EndsInCommit(w, batch, Joined(lives)) ==>
                      |db.log| == DeliveredBlocks(w, t, TallyOf(w, batch, Start(w), CLEAN, Joined(lives))))
    ensures (forall i :: 0 <= i < |scripts| ==> DiesOnFailure(scripts[i]))
            ==> db.State() == Run(w, |db.log| + 1, Start(w), Straight(|db.log|)).db
  {
    hide Plausible, Numbered, World.Good, Start, Restarted, Run, TallyOf, Admissible, CarriedBy, Lived, DiesOnFailure, Joined,
      DeliveredBlocks, EndsInCommit, Latest, NoTies;
    ghost var batch := AtLeastOne(commitBatchSize);
    lives := [];
    assert Joined([]) == [] by { JoinedNone(); }
    var i := 0;
    Beginning(w, batch);
    while i < |scripts|
      invariant 0 <= i <= |scripts| && |lives| == i
      invariant forall j :: 0 <= j < i ==> Lived(lives[j], scripts[j])
      invariant TallyOf(w, batch, Start(w), CLEAN, Joined(lives)).committed == 0
                ==> db.State() == Run(w, batch, Start(w), Joined(lives)).db
      invariant (forall j :: 0 <= j < i ==> DiesOnFailure(scripts[j]))
                ==> Admissible(w, batch, Start(w), CLEAN, Joined(lives))
    {
      var answer := Latest(db.State().depths);
      LatestIsOnlyAnswer(db.State().depths, answer);
      var syncer := new Syncer(db, commitBatchSize, initialHeight, fetchBatchSize, parallelism, decode, answer, w);
      ghost var before := Joined(lives);
      var ended, life, at := syncer.Run(scripts[i]);
      OneMoreLife(w, batch, before, life);
      if DiesOnFailure(scripts[i]) {
        CarriedAreAccepted(life, scripts[i], at);
      }
      JoinedNext(lives, life);
      LivedBy(life, scripts[i], at);
      lives := lives + [life];
      i := i + 1;
    }
    ghost var n := CrashAndBatchTransparency(w, batch, Joined(lives));
  }
}
