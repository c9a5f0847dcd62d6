/**
 The three-short-boot gesture.

 The identity keeps at most two boot ids and the time of the first.  Over any life, with
 its password rotated, its permission consumed and its counter cleared in between, that
 counter is proved to decide as the whole history of boots does.
 */
module BootGesture {
  import opened Sequences
  import opened Wrappers
  import opened SetupIdentity

  // ------------------------------------------------------ the gesture in a history

  /** A boot that the store does not refuse outright. */
  predicate IsBoot(op: Op) {
    op.Boot? && ValidBootId(op.id) && op.at >= 0.0
  }

  predicate InWindow(first: real, at: real) {
    0.0 <= at - first <= RECOVERY_SEQUENCE_WINDOW_S
  }

  /** The places hold boots of the history. */
  predicate AreBoots(ops: seq<Op>, where: seq<nat>) {
    forall k | 0 <= k < |where| :: where[k] < |ops| && IsBoot(ops[where[k]])
  }

  predicate IsNew(ops: seq<Op>, where: seq<nat>, id: string)
    requires AreBoots(ops, where)
  {
    forall k | 0 <= k < |where| :: ops[where[k]].id != id
  }

  /** What is still current of the gesture when the next operation comes. */
  function Current(where: seq<nat>): seq<nat> {
    if |where| >= 3 then [] else where
  }

  /** How the last operation of a history changes the gesture that was current before it. */
  function Extended(ops: seq<Op>, since: real, current: seq<nat>): (where: seq<nat>)
    requires ops != [] && AreBoots(ops[..|ops| - 1], current)
    ensures AreBoots(ops, where)
  {
    var n, op := |ops| - 1, ops[|ops| - 1];
    assert forall k | 0 <= k < |current| :: ops[..n][current[k]] == ops[current[k]];
    if op.Clearing? then []
    else if !IsBoot(op) then current
    else if current == [] || !InWindow(ops[current[0]].at, op.at) then [n]
    else if !IsNew(ops, current, op.id) || (|current| == 2 && op.at < since) then current
    else current + [n]
  }

  /**
   Where the different boots of the current gesture are in the history.  A clearing ends
   the gesture, so does its completion by a third boot, and a boot outside the window of
   the first starts another; rotations and consumptions do not matter.  A completion
   dated before the commissioning (`since`) is refused and so leaves no trace.
   */
  function Gesture(ops: seq<Op>, since: real): (where: seq<nat>)
    ensures AreBoots(ops, where)
    decreases |ops|
  {
    if ops == [] then [] else Extended(ops, since, Current(Gesture(ops[..|ops| - 1], since)))
  }

  /** The ids of the boots at these places. */
  function Ids(ops: seq<Op>, where: seq<nat>): seq<string>
    requires AreBoots(ops, where)
  {
    seq(|where|, k requires 0 <= k < |where| => ops[where[k]].id)
  }

  /** The stored counter holds the boots of the gesture and the time of the first. */
  predicate Agrees(b: ShortBoots, ops: seq<Op>, where: seq<nat>)
    requires AreBoots(ops, where)
  {
    b == Boots(Ids(ops, where), if where == [] then None else Some(ops[where[0]].at))
  }

  // ------------------------------------------------------ one operation

  lemma SamePlaces(ops: seq<Op>, op: Op, where: seq<nat>)
    requires AreBoots(ops, where)
    ensures AreBoots(ops + [op], where) && Ids(ops + [op], where) == Ids(ops, where)
  {
  }

  lemma OnePlaceMore(ops: seq<Op>, where: seq<nat>, n: nat)
    requires AreBoots(ops, where) && n < |ops| && IsBoot(ops[n])
    ensures AreBoots(ops, where + [n]) && Ids(ops, where + [n]) == Ids(ops, where) + [ops[n].id]
  {
  }

  lemma NewIsNotAmong(ops: seq<Op>, where: seq<nat>, id: string)
    requires AreBoots(ops, where)
    ensures IsNew(ops, where, id) <==> id !in Ids(ops, where)
  {
    forall k | 0 <= k < |where|
      ensures Ids(ops, where)[k] == ops[where[k]].id
    {
    }
    if !IsNew(ops, where, id) {
      var k :| 0 <= k < |where| && ops[where[k]].id == id;
      assert Ids(ops, where)[k] in Ids(ops, where);
    }
  }

  /** A boot that is not refused does to the life what `NextBoots` says. */
  lemma LiveBoot(l: Life, boot: Op)
    requires LifeInv(l) && IsBoot(boot)
    ensures var outcome := NextBoots(l.identity.shortBoots, boot.id, boot.at);
            var l' := Live(l, boot);
            match outcome
            case Repeated => l' == l
            case Progress(boots) => l'.identity.shortBoots == boots && l'.recoveries == l.recoveries
            case ThirdBoot =>
              if boot.at < l.identity.commissionedAt then l' == l
              else l'.identity.shortBoots == NO_BOOTS && l'.recoveries == l.recoveries + 1
  {
    hide ValidPassword, ValidSsid;
  }

  lemma LiveOther(l: Life, op: Op)
    requires LifeInv(l) && !IsBoot(op)
    ensures Live(l, op).recoveries == l.recoveries
    ensures Live(l, op).identity.shortBoots == if op.Clearing? then NO_BOOTS else l.identity.shortBoots
  {
    hide ValidPassword, ValidSsid;
  }

  /** One more operation does to the counter what it does to the gesture. */
  predicate Follows(l: Life, l': Life, ops: seq<Op>, where: seq<nat>)
    requires AreBoots(ops, where)
  {
    && (l'.recoveries == l.recoveries + (if |where| >= 3 then 1 else 0))
    && Agrees(l'.identity.shortBoots, ops, Current(where))
  }

  lemma BootStarts(l: Life, ops: seq<Op>, op: Op, current: seq<nat>)
    requires LifeInv(l) && IsBoot(op) && |current| < 3
    requires AreBoots(ops, current) && Agrees(l.identity.shortBoots, ops, current)
    requires current == [] || !InWindow(ops[current[0]].at, op.at)
    ensures (ops + [op])[..|ops|] == ops
    ensures Follows(l, Live(l, op), ops + [op], Extended(ops + [op], l.identity.commissionedAt, current))
  {
    var all := ops + [op];
    assert all[..|ops|] == ops && all[|ops|] == op;
    LiveBoot(l, op);
    ValidCounter(l);
    OnePlaceMore(all, [], |ops|);
    assert [] + [|ops|] == [|ops|] && Ids(all, []) == [];
    hide Ids, Live, LifeInv, ValidBoots, IsNew;
  }

  lemma BootContinues(l: Life, ops: seq<Op>, op: Op, current: seq<nat>)
    requires LifeInv(l) && IsBoot(op) && 0 < |current| < 3
    requires AreBoots(ops, current) && Agrees(l.identity.shortBoots, ops, current)
    requires InWindow(ops[current[0]].at, op.at)
    ensures (ops + [op])[..|ops|] == ops
    ensures Follows(l, Live(l, op), ops + [op], Extended(ops + [op], l.identity.commissionedAt, current))
  {
    var all := ops + [op];
    assert all[..|ops|] == ops && all[|ops|] == op && all[current[0]] == ops[current[0]];
    SamePlaces(ops, op, current);
    LiveBoot(l, op);
    ValidCounter(l);
    NewIsNotAmong(all, current, op.id);
    OnePlaceMore(all, current, |ops|);
    assert Ids(all, []) == [];
    hide Ids, Live, LifeInv, ValidBoots, IsNew;
  }

  lemma ValidCounter(l: Life)
    requires LifeInv(l)
    ensures ValidBoots(l.identity.shortBoots)
  {
  }

  lemma OtherFollows(l: Life, ops: seq<Op>, op: Op, current: seq<nat>)
    requires LifeInv(l) && !IsBoot(op) && |current| < 3
    requires AreBoots(ops, current) && Agrees(l.identity.shortBoots, ops, current)
    ensures (ops + [op])[..|ops|] == ops
    ensures Follows(l, Live(l, op), ops + [op], Extended(ops + [op], l.identity.commissionedAt, current))
  {
    var all := ops + [op];
    assert all[..|ops|] == ops && all[|ops|] == op;
    LiveOther(l, op);
    SamePlaces(ops, op, current);
    assert Ids(all, []) == [];
    hide Ids, Live, LifeInv;
  }

  // ------------------------------------------------------ main results

  /**
   The two-id counter refines the whole history: in every life, an operation recovers
   exactly when it completes the gesture, and in between the counter holds the ids of
   the gesture's boots, in order, and the time of the first.
   */
  lemma {:induction false} CounterRefinesHistory(l: Life, ops: seq<Op>)
    requires LifeInv(l) && l.identity.shortBoots == NO_BOOTS && ClockNeverBefore(ops, l.identity.commissionedAt)
    ensures var where := Gesture(ops, l.identity.commissionedAt);
            && Agrees(LiveAll(l, ops).identity.shortBoots, ops, Current(where))
            && (ops != [] ==>
                  LiveAll(l, ops).recoveries
                  == LiveAll(l, ops[..|ops| - 1]).recoveries + (if |where| >= 3 then 1 else 0))
    decreases |ops|
  {
    if ops == [] {
      assert Ids(ops, []) == [];
    } else {
      var init, op := ops[..|ops| - 1], ops[|ops| - 1];
      var l' := LiveAll(l, init);
      assert ops == init + [op];
      CounterRefinesHistory(l, init);
      LiveAllKeepsInv(l, init);
      var current := Current(Gesture(init, l.identity.commissionedAt));
      if IsBoot(op) && (current == [] || !InWindow(init[current[0]].at, op.at)) {
        BootStarts(l', init, op, current);
      } else if IsBoot(op) {
        BootContinues(l', init, op, current);
      } else {
        OtherFollows(l', init, op, current);
      }
      hide Extended, Live, LifeInv, Agrees;
    }
  }

  /** What the places of a gesture are: different boots in order, in one window, and every boot since the first. */
  predicate IsGesture(ops: seq<Op>, since: real, where: seq<nat>)
    requires AreBoots(ops, where)
  {
    where != [] ==>
      && |where| <= 3 && (|where| == 3 ==> where[2] == |ops| - 1)
      && (forall j, k | 0 <= j < k < |where| :: where[j] < where[k] && ops[where[j]].id != ops[where[k]].id)
      && (forall k | 0 <= k < |where| :: InWindow(ops[where[0]].at, ops[where[k]].at))
      && (forall m | where[0] < m < |ops| :: !ops[m].Clearing?)
      && (forall m | where[0] <= m < |ops| && IsBoot(ops[m]) ::
            InWindow(ops[where[0]].at, ops[m].at) && (ops[m].at >= since ==> !IsNew(ops, where, ops[m].id)))
  }

  lemma GestureGoesOn(ops: seq<Op>, since: real, where: seq<nat>)
    requires ops != [] && !ops[|ops| - 1].Clearing? && |where| < 3
    requires AreBoots(ops[..|ops| - 1], where) && IsGesture(ops[..|ops| - 1], since, where)
    requires where != [] && IsBoot(ops[|ops| - 1]) ==> InWindow(ops[where[0]].at, ops[|ops| - 1].at)
    requires where != [] && IsBoot(ops[|ops| - 1]) && ops[|ops| - 1].at >= since ==>
               AreBoots(ops, where) && !IsNew(ops, where, ops[|ops| - 1].id)
    ensures AreBoots(ops, where) && IsGesture(ops, since, where)
  {
    var init := ops[..|ops| - 1];
    assert forall m | 0 <= m < |init| :: ops[m] == init[m];
    forall m | where != [] && where[0] <= m < |init| && IsBoot(ops[m]) && ops[m].at >= since
      ensures !IsNew(ops, where, ops[m].id)
    {
      assert IsBoot(init[m]) && !IsNew(init, where, init[m].id);
    }
  }

  lemma GestureGrows(ops: seq<Op>, since: real, where: seq<nat>)
    requires ops != [] && IsBoot(ops[|ops| - 1]) && 0 < |where| < 3
    requires AreBoots(ops[..|ops| - 1], where) && IsGesture(ops[..|ops| - 1], since, where)
    requires AreBoots(ops, where) && IsNew(ops, where, ops[|ops| - 1].id)
    requires InWindow(ops[where[0]].at, ops[|ops| - 1].at)
    ensures AreBoots(ops, where + [|ops| - 1]) && IsGesture(ops, since, where + [|ops| - 1])
  {
    var init, n := ops[..|ops| - 1], |ops| - 1;
    var where' := where + [n];
    assert forall m | 0 <= m < n :: ops[m] == init[m];
    forall m | where[0] <= m < |ops| && IsBoot(ops[m]) && ops[m].at >= since
      ensures !IsNew(ops, where', ops[m].id)
    {
      if m < n {
        assert IsBoot(init[m]) && !IsNew(init, where, init[m].id);
        var k :| 0 <= k < |where| && init[where[k]].id == init[m].id;
        assert ops[where'[k]].id == ops[m].id;
      } else {
        assert ops[where'[|where|]].id == ops[m].id;
      }
    }
  }

  lemma {:induction false} GestureIsOne(ops: seq<Op>, since: real)
    ensures IsGesture(ops, since, Gesture(ops, since))
    decreases |ops|
  {
    if ops != [] {
      var n, op := |ops| - 1, ops[|ops| - 1];
      GestureIsOne(ops[..n], since);
      var current := Current(Gesture(ops[..n], since));
      assert AreBoots(ops, current);
      hide IsGesture;
      if op.Clearing? {
        assert IsGesture(ops, since, []) by { NoGesture(ops, since); }
      } else if !IsBoot(op) {
        CurrentIsGesture(ops[..n], since);
        GestureGoesOn(ops, since, current);
      } else if current == [] || !InWindow(ops[current[0]].at, op.at) {
        GestureStarts(ops, since);
      } else if !IsNew(ops, current, op.id) || (|current| == 2 && op.at < since) {
        CurrentIsGesture(ops[..n], since);
        GestureGoesOn(ops, since, current);
      } else {
        CurrentIsGesture(ops[..n], since);
        GestureGrows(ops, since, current);
      }
    }
  }

  lemma NoGesture(ops: seq<Op>, since: real)
    ensures IsGesture(ops, since, [])
  {
  }

  lemma CurrentIsGesture(ops: seq<Op>, since: real)
    requires IsGesture(ops, since, Gesture(ops, since))
    ensures AreBoots(ops, Current(Gesture(ops, since))) && IsGesture(ops, since, Current(Gesture(ops, since)))
  {
  }

  lemma GestureStarts(ops: seq<Op>, since: real)
    requires ops != [] && IsBoot(ops[|ops| - 1])
    ensures AreBoots(ops, [|ops| - 1]) && IsGesture(ops, since, [|ops| - 1])
  {
    assert ops[[|ops| - 1][0]].id == ops[|ops| - 1].id;
  }

  /** The counter's boots are earlier boots of the life: in order, within the window, nothing cleared since. */
  lemma CounterHasWitnesses(l: Life, ops: seq<Op>) returns (where: seq<nat>)
    requires LifeInv(l) && l.identity.shortBoots == NO_BOOTS && ClockNeverBefore(ops, l.identity.commissionedAt)
    ensures AreBoots(ops, where) && Agrees(LiveAll(l, ops).identity.shortBoots, ops, where)
    ensures IsGesture(ops, l.identity.commissionedAt, where) && |where| <= 2
  {
    CounterRefinesHistory(l, ops);
    GestureIsOne(ops, l.identity.commissionedAt);
    CurrentIsGesture(ops, l.identity.commissionedAt);
    where := Current(Gesture(ops, l.identity.commissionedAt));
  }

  /**
   A recovery is earned: when an operation recovers, it is a boot, and two earlier boots
   with different ids from it and from each other precede it with nothing cleared since
   the first of them, both within 180 seconds after the first.
   */
  lemma RecoveryNeedsThreeBoots(l: Life, ops: seq<Op>) returns (i: nat, j: nat)
    requires LifeInv(l) && l.identity.shortBoots == NO_BOOTS && ClockNeverBefore(ops, l.identity.commissionedAt)
    requires ops != [] && LiveAll(l, ops).recoveries > LiveAll(l, ops[..|ops| - 1]).recoveries
    ensures var k := |ops| - 1;
            && i < j < k && ops[i].Boot? && ops[j].Boot? && ops[k].Boot?
            && ops[i].id != ops[j].id && ops[i].id != ops[k].id && ops[j].id != ops[k].id
            && 0.0 <= ops[j].at - ops[i].at <= RECOVERY_SEQUENCE_WINDOW_S
            && 0.0 <= ops[k].at - ops[i].at <= RECOVERY_SEQUENCE_WINDOW_S
            && (forall m | i < m < k :: !ops[m].Clearing?)
  {
    CounterRefinesHistory(l, ops);
    GestureIsOne(ops, l.identity.commissionedAt);
    hide Gesture, Live, LiveAll, LifeInv, Agrees;
    var where := Gesture(ops, l.identity.commissionedAt);
    i, j := where[0], where[1];
  }

  // ------------------------------------------------------ three boots in one window

  /** The different ids recorded from `i` on and before `n`. */
  function IdsBetween(ops: seq<Op>, i: nat, n: nat): set<string>
    requires n <= |ops|
  {
    set m | i <= m < n && IsBoot(ops[m]) :: ops[m].id
  }

  /** From boot `i` on nothing is cleared, and every boot is in its window and not before the commissioning. */
  predicate InOneWindow(ops: seq<Op>, since: real, i: nat) {
    && i < |ops| && IsBoot(ops[i])
    && (forall m | i <= m < |ops| :: !ops[m].Clearing?)
    && (forall m | i <= m < |ops| && IsBoot(ops[m]) :: InWindow(ops[i].at, ops[m].at) && ops[m].at >= since)
  }

  lemma SubsetIsSmaller(a: set<string>, b: set<string>)
    requires a <= b
    ensures |a| <= |b|
  {
    assert b == a + (b - a);
  }

  /** A gesture that began at `i` holds exactly the ids recorded since. */
  lemma GestureHoldsAll(ops: seq<Op>, since: real, i: nat)
    requires InOneWindow(ops, since, i) && Gesture(ops, since) != [] && Gesture(ops, since)[0] == i
    ensures |Gesture(ops, since)| == |IdsBetween(ops, i, |ops|)|
  {
    var where := Gesture(ops, since);
    GestureIsOne(ops, since);
    hide Gesture;
    var ids, all := Ids(ops, where), IdsBetween(ops, i, |ops|);
    assert forall k | 0 <= k < |where| :: ids[k] == ops[where[k]].id;
    forall x
      ensures x in ids <==> x in all
    {
      if x in all {
        var m :| i <= m < |ops| && IsBoot(ops[m]) && ops[m].id == x;
        NewIsNotAmong(ops, where, x);
      }
    }
    DistinctFillTheirSet(ids, all);
  }

  lemma ShorterRun(ops: seq<Op>, since: real, i: nat)
    requires InOneWindow(ops, since, i) && i < |ops| - 1
    ensures var init := ops[..|ops| - 1];
            && InOneWindow(init, since, i) && init[..i] == ops[..i]
            && IdsBetween(init, i, |init|) == IdsBetween(ops, i, |init|)
            && |IdsBetween(init, i, |init| - 1)| <= |IdsBetween(ops, i, |init|)|
  {
    var init := ops[..|ops| - 1];
    assert forall m | 0 <= m < |init| :: init[m] == ops[m];
    SubsetIsSmaller(IdsBetween(init, i, |init| - 1), IdsBetween(ops, i, |init|));
  }

  lemma StillBeginsAt(ops: seq<Op>, since: real, i: nat, current: seq<nat>)
    requires InOneWindow(ops, since, i) && i < |ops| - 1
    requires AreBoots(ops[..|ops| - 1], current) && current != [] && current[0] == i
    ensures Extended(ops, since, current) != [] && Extended(ops, since, current)[0] == i
  {
  }

  lemma {:induction false} GestureBeginsAt(ops: seq<Op>, since: real, i: nat)
    requires InOneWindow(ops, since, i) && Current(Gesture(ops[..i], since)) == []
    requires |IdsBetween(ops, i, |ops| - 1)| < 3
    ensures Gesture(ops, since) != [] && Gesture(ops, since)[0] == i
    decreases |ops|
  {
    var init := ops[..|ops| - 1];
    if i < |init| {
      ShorterRun(ops, since, i);
      hide InOneWindow, IdsBetween, Extended;
      GestureBeginsAt(init, since, i);
      GestureHoldsAll(init, since, i);
      StillBeginsAt(ops, since, i, Gesture(init, since));
    }
  }

  /**
   From an empty counter, whatever rotations and consumptions come between, boots inside
   one window recover at the very boot that makes three of them differ.
   */
  lemma ThreeBootsInAWindowRecover(l: Life, ops: seq<Op>, i: nat)
    requires LifeInv(l) && l.identity.shortBoots == NO_BOOTS && ClockNeverBefore(ops, l.identity.commissionedAt)
    requires InOneWindow(ops, l.identity.commissionedAt, i) && LiveAll(l, ops[..i]).identity.shortBoots == NO_BOOTS
    requires |IdsBetween(ops, i, |ops| - 1)| < 3
    ensures LiveAll(l, ops).recoveries > LiveAll(l, ops[..|ops| - 1]).recoveries <==> |IdsBetween(ops, i, |ops|)| >= 3
  {
    var since := l.identity.commissionedAt;
    CounterRefinesHistory(l, ops[..i]);
    assert |Ids(ops[..i], Current(Gesture(ops[..i], since)))| == 0;
    CounterRefinesHistory(l, ops);
    GestureBeginsAt(ops, since, i);
    GestureHoldsAll(ops, since, i);
  }
}
