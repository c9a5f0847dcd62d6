/**
 What the operations of a life did to the identity: which password is in force and
 whether the hotspot is allowed, told from the history alone.
 */
module IdentityHistory {
  import opened Wrappers
  import opened SetupIdentity

  /** The life after the first `n` operations. */
  function After(l: Life, ops: seq<Op>, n: nat): Life
    requires n <= |ops|
  {
    LiveAll(l, ops[..n])
  }

  lemma OneMore(l: Life, ops: seq<Op>, n: nat)
    requires n < |ops|
    ensures After(l, ops, n + 1) == Live(After(l, ops, n), ops[n])
  {
    assert ops[..n + 1][..n] == ops[..n];
  }

  predicate RecoversAt(l: Life, ops: seq<Op>, k: nat)
    requires k < |ops|
  {
    After(l, ops, k + 1).recoveries > After(l, ops, k).recoveries
  }

  predicate RotatesAt(l: Life, ops: seq<Op>, k: nat)
    requires k < |ops|
  {
    After(l, ops, k + 1).rotations > After(l, ops, k).rotations
  }

  predicate ConsumesAt(l: Life, ops: seq<Op>, k: nat)
    requires k < |ops|
  {
    After(l, ops, k + 1).consumptions > After(l, ops, k).consumptions
  }

  // ------------------------------------------------------ one operation

  /** The SSID, the factory password and the commissioning date are for life. */
  predicate SameFoundation(d: Identity, d': Identity) {
    d'.ssid == d.ssid && d'.factoryPsk == d.factoryPsk && d'.commissionedAt == d.commissionedAt
  }

  predicate SamePermission(d: Identity, d': Identity) {
    d'.armed == d.armed && d'.reason == d.reason && d'.armedAt == d.armedAt
  }

  predicate SamePassword(d: Identity, d': Identity) {
    d'.activePsk == d.activePsk && d'.rotatedAt == d.rotatedAt && d'.generation == d.generation
  }

  /** What a recovery leaves behind, told without the operation that does it. */
  predicate RecoveredAt(d: Identity, at: real) {
    d.activePsk == d.factoryPsk && d.armed && d.reason == Recovery && d.armedAt == at && d.shortBoots == NO_BOOTS
  }

  lemma WhatOneChanges(l: Life, op: Op)
    ensures var l' := Live(l, op);
            var d, d' := l.identity, l'.identity;
            && SameFoundation(d, d')
            && (l'.recoveries > l.recoveries ==>
                  && op.Boot? && RecoveredAt(d', op.at)
                  && d'.generation == d.generation + 1 && d'.rotatedAt == d.rotatedAt)
            && (l'.rotations > l.rotations ==>
                  && op.Rotation? && d'.activePsk == op.password && d'.rotatedAt == Some(op.now)
                  && d'.generation == d.generation + 1 && SamePermission(d, d') && d'.shortBoots == d.shortBoots)
            && (l'.consumptions > l.consumptions ==>
                  op.Consumption? && d.armed && d' == d.(armed := false))
            && (l'.recoveries == l.recoveries && l'.rotations == l.rotations ==> SamePassword(d, d'))
            && (l'.recoveries == l.recoveries && l'.consumptions == l.consumptions ==> SamePermission(d, d'))
            && (d'.shortBoots != d.shortBoots ==> op.Boot? || op.Clearing?)
            && l'.recoveries >= l.recoveries && l'.rotations >= l.rotations && l'.consumptions >= l.consumptions
  {
    hide ValidIdentity, ValidPassword, ValidBootId;
  }

  // ------------------------------------------------------ whole lives

  /** No operation ever changes the SSID, the factory password or the commissioning date. */
  lemma {:induction false} FoundationIsForLife(l: Life, ops: seq<Op>)
    ensures SameFoundation(l.identity, LiveAll(l, ops).identity)
    decreases |ops|
  {
    hide Live;
    if ops != [] {
      FoundationIsForLife(l, ops[..|ops| - 1]);
      WhatOneChanges(LiveAll(l, ops[..|ops| - 1]), ops[|ops| - 1]);
    }
  }

  /** Every recovery puts the factory password back and allows the hotspot from the time of its boot. */
  lemma RecoveryRestoresFactoryPassword(l: Life, ops: seq<Op>, k: nat)
    requires k < |ops| && RecoversAt(l, ops, k)
    ensures ops[k].Boot?
    ensures var d := After(l, ops, k + 1).identity;
            && d.activePsk == l.identity.factoryPsk
            && d.armed && d.reason == Recovery && d.armedAt == ops[k].at && d.shortBoots == NO_BOOTS
            && d.generation == After(l, ops, k).identity.generation + 1
  {
    OneMore(l, ops, k);
    WhatOneChanges(After(l, ops, k), ops[k]);
    FoundationIsForLife(l, ops[..k + 1]);
    hide Live, LiveAll;
  }

  lemma {:induction false} QuietKeepsPassword(l: Life, ops: seq<Op>, n: nat, m: nat)
    requires n <= m <= |ops| && forall j | n <= j < m :: !RotatesAt(l, ops, j) && !RecoversAt(l, ops, j)
    ensures SamePassword(After(l, ops, n).identity, After(l, ops, m).identity)
    decreases m
  {
    hide Live, LiveAll;
    if n < m {
      QuietKeepsPassword(l, ops, n, m - 1);
      OneMore(l, ops, m - 1);
      WhatOneChanges(After(l, ops, m - 1), ops[m - 1]);
      assert !RotatesAt(l, ops, m - 1) && !RecoversAt(l, ops, m - 1);
    }
  }

  lemma {:induction false} QuietKeepsPermission(l: Life, ops: seq<Op>, n: nat, m: nat)
    requires n <= m <= |ops| && forall j | n <= j < m :: !ConsumesAt(l, ops, j) && !RecoversAt(l, ops, j)
    ensures SamePermission(After(l, ops, n).identity, After(l, ops, m).identity)
    decreases m
  {
    hide Live, LiveAll;
    if n < m {
      QuietKeepsPermission(l, ops, n, m - 1);
      OneMore(l, ops, m - 1);
      WhatOneChanges(After(l, ops, m - 1), ops[m - 1]);
      assert !ConsumesAt(l, ops, m - 1) && !RecoversAt(l, ops, m - 1);
    }
  }

  /**
   The password in force is the one at the start, or what the last rotation or recovery
   made it: the rotation's own, or the factory one.
   */
  lemma PasswordInForce(l: Life, ops: seq<Op>, last: Option<nat>)
    requires last.Some? ==> last.value < |ops| && (RotatesAt(l, ops, last.value) || RecoversAt(l, ops, last.value))
    requires var n := if last.Some? then last.value + 1 else 0;
             forall j | n <= j < |ops| :: !RotatesAt(l, ops, j) && !RecoversAt(l, ops, j)
    ensures var d := LiveAll(l, ops).identity;
            && (last == None ==> d.activePsk == l.identity.activePsk && d.rotatedAt == l.identity.rotatedAt)
            && (last.Some? && RotatesAt(l, ops, last.value) ==>
                  && ops[last.value].Rotation? && d.activePsk == ops[last.value].password
                  && d.rotatedAt == Some(ops[last.value].now))
            && (last.Some? && RecoversAt(l, ops, last.value) ==> d.activePsk == l.identity.factoryPsk)
  {
    var n := if last.Some? then last.value + 1 else 0;
    QuietKeepsPassword(l, ops, n, |ops|);
    assert ops[..|ops|] == ops;
    if last.Some? {
      OneMore(l, ops, last.value);
      WhatOneChanges(After(l, ops, last.value), ops[last.value]);
      FoundationIsForLife(l, ops[..n]);
    }
    hide Live;
  }

  /**
   The hotspot is allowed exactly when nothing has used the permission since it was last
   given: by the start of the life or by a recovery, from that recovery's time on.
   */
  lemma PermissionInForce(l: Life, ops: seq<Op>, last: Option<nat>)
    requires last.Some? ==> last.value < |ops| && (ConsumesAt(l, ops, last.value) || RecoversAt(l, ops, last.value))
    requires var n := if last.Some? then last.value + 1 else 0;
             forall j | n <= j < |ops| :: !ConsumesAt(l, ops, j) && !RecoversAt(l, ops, j)
    ensures var d := LiveAll(l, ops).identity;
            && (d.armed <==> if last.Some? then RecoversAt(l, ops, last.value) else l.identity.armed)
            && (last.Some? && RecoversAt(l, ops, last.value) ==>
                  ops[last.value].Boot? && d.armedAt == ops[last.value].at && d.reason == Recovery)
            && (last == None ==> SamePermission(l.identity, d))
  {
    var n := if last.Some? then last.value + 1 else 0;
    QuietKeepsPermission(l, ops, n, |ops|);
    assert ops[..|ops|] == ops;
    if last.Some? {
      OneMore(l, ops, last.value);
      WhatOneChanges(After(l, ops, last.value), ops[last.value]);
    }
    hide Live;
  }

  /** An identity's life begins with the hotspot allowed and the given password in force, for the factory's reason. */
  lemma LifeBeginsAllowed(ssid: string, password: string, now: real)
    requires ValidSsid(ssid) && ValidPassword(password) && now >= 0.0
    ensures var d := Commissioned(ssid, password, now);
            && ValidIdentity(d, false)
            && d.ssid == ssid && d.activePsk == password && d.factoryPsk == password && d.commissionedAt == now
            && d.generation == 1 && d.armed && d.reason == Factory && d.armedAt == now
            && ConsumesAt(Life(d, 0, 0, 0), [Consumption], 0)
  {
    hide ValidPassword, ValidSsid;
    var l := Life(Commissioned(ssid, password, now), 0, 0, 0);
    OneMore(l, [Consumption], 0);
  }
}
