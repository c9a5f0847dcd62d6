/**
 The appliance's persisted setup identity: commissioned once, its password rotated on
 demand, its single permission to raise the hotspot consumed, and re-armed only by
 three short boots in a row.

 `Identity` is the JSON document after parsing.  Timestamps are reals; a `short_boots`
 value of the wrong shape is `Malformed`.
 */
module SetupIdentity {
  import opened Sequences
  import opened Wrappers

  const RECOVERY_SEQUENCE_WINDOW_S: real := 180.0
  const MAX_SSID_BYTES: nat := 32
  const MAX_BOOT_ID: nat := 128

  datatype Reason = Factory | Recovery

  datatype ShortBoots = Boots(ids: seq<string>, firstAt: Option<real>) | Malformed

  const NO_BOOTS := Boots([], None)

  datatype Identity = Identity(
    ssid: string,
    factoryPsk: string,
    activePsk: string,
    generation: int,
    commissionedAt: real,
    rotatedAt: Option<real>,
    armed: bool,
    reason: Reason,
    armedAt: real,
    shortBoots: ShortBoots)

  // ------------------------------------------------------ validation

  predicate Printable(s: string) {
    forall i | 0 <= i < |s| :: s[i] >= ' ' && s[i] != '\U{7F}'
  }

  function Utf8Length(s: string): nat {
    if s == "" then 0
    else
      (if s[0] < '\U{80}' then 1 else if s[0] < '\U{800}' then 2 else if s[0] < '\U{10000}' then 3 else 4)
      + Utf8Length(s[1..])
  }

  predicate ValidSsid(s: string) {
    s != "" && Utf8Length(s) <= MAX_SSID_BYTES && Printable(s)
  }

  predicate PasswordChar(c: char) {
    'a' <= c <= 'z' || '0' <= c <= '9'
  }

  /** Three dash-separated groups of four, with at least four different characters. */
  predicate ValidPassword(s: string) {
    && |s| == 14
    && (forall i | 0 <= i < 14 :: if i == 4 || i == 9 then s[i] == '-' else PasswordChar(s[i]))
    && |set i | 0 <= i < 14 && s[i] != '-' :: s[i]| >= 4
  }

  predicate ValidBootId(id: string) {
    id != "" && |id| <= MAX_BOOT_ID && Printable(id)
  }

  predicate ValidBoots(b: ShortBoots) {
    && b.Boots?
    && |b.ids| <= 2
    && (forall i | 0 <= i < |b.ids| :: ValidBootId(b.ids[i]))
    && NoRepeats(b.ids)
    && (if b.ids == [] then b.firstAt == None else b.firstAt.Some? && b.firstAt.value >= 0.0)
  }

  predicate ValidIdentity(d: Identity, allowBadShortBoots: bool) {
    && ValidSsid(d.ssid)
    && ValidPassword(d.factoryPsk) && ValidPassword(d.activePsk)
    && d.generation >= 1
    && d.commissionedAt >= 0.0
    && (d.rotatedAt.Some? ==> d.rotatedAt.value >= 0.0 && d.rotatedAt.value >= d.commissionedAt)
    && (d.activePsk != d.factoryPsk ==> d.rotatedAt.Some?)
    && d.armedAt >= 0.0 && d.armedAt >= d.commissionedAt
    && (allowBadShortBoots || ValidBoots(d.shortBoots))
  }

  // ------------------------------------------------------ what each operation writes

  function Commissioned(ssid: string, password: string, now: real): Identity {
    Identity(ssid, password, password, 1, now, None, true, Factory, now, NO_BOOTS)
  }

  predicate IsFresh(d: Identity, password: string) {
    password !in {d.activePsk, d.factoryPsk}
  }

  predicate IsFirstFresh(d: Identity, candidates: seq<string>, password: string) {
    exists i | 0 <= i < |candidates| ::
      candidates[i] == password && IsFresh(d, password) && forall j | 0 <= j < i :: !IsFresh(d, candidates[j])
  }

  function Rotated(d: Identity, password: string, now: real): Identity {
    d.(activePsk := password, generation := d.generation + 1, rotatedAt := Some(now))
  }

  datatype BootOutcome = Repeated | Progress(boots: ShortBoots) | ThirdBoot

  predicate Expired(b: ShortBoots, now: real)
    requires ValidBoots(b)
  {
    b.ids != [] && (now < b.firstAt.value || now - b.firstAt.value > RECOVERY_SEQUENCE_WINDOW_S)
  }

  function NextBoots(b: ShortBoots, bootId: string, now: real): BootOutcome {
    if !ValidBoots(b) || b.ids == [] || Expired(b, now) then Progress(Boots([bootId], Some(now)))
    else if bootId in b.ids then Repeated
    else if |b.ids| + 1 >= 3 then ThirdBoot
    else Progress(b.(ids := b.ids + [bootId]))
  }

  function Recorded(d: Identity, bootId: string, now: real): Identity {
    match NextBoots(d.shortBoots, bootId, now)
    case Repeated => d
    case Progress(boots) => d.(shortBoots := boots)
    case ThirdBoot =>
      d.(activePsk := d.factoryPsk, generation := d.generation + 1,
         armed := true, reason := Recovery, armedAt := now, shortBoots := NO_BOOTS)
  }

  datatype IdentityError =
    | InvalidArgument
    | NotCommissioned
    | AlreadyCommissioned
    | InvalidStoredIdentity
    | InvalidNewIdentity

  // ------------------------------------------------------ whole lives

  datatype Op = Rotation(password: string, now: real) | Consumption | Boot(id: string, at: real) | Clearing

  /** An identity and the record of what its operations did. */
  datatype Life = Life(identity: Identity, rotations: nat, recoveries: nat, consumptions: nat)

  /** One operation as `IdentityStore` performs it; an operation that raises changes nothing. */
  function Live(l: Life, op: Op): Life {
    var d := l.identity;
    match op
    case Rotation(password, now) =>
      if ValidPassword(password) && IsFresh(d, password) && now >= 0.0 && ValidIdentity(d, false)
      then l.(identity := Rotated(d, password, now), rotations := l.rotations + 1)
      else l
    case Consumption =>
      if ValidIdentity(d, false) && d.armed
      then l.(identity := d.(armed := false), consumptions := l.consumptions + 1)
      else l
    case Boot(id, at) =>
      var third := NextBoots(d.shortBoots, id, at).ThirdBoot?;
      if ValidBootId(id) && at >= 0.0 && ValidIdentity(d, true) && (third ==> at >= d.commissionedAt)
      then l.(identity := Recorded(d, id, at), recoveries := if third then l.recoveries + 1 else l.recoveries)
      else l
    case Clearing => if ValidIdentity(d, true) then l.(identity := d.(shortBoots := NO_BOOTS)) else l
  }

  function LiveAll(l: Life, ops: seq<Op>): Life
    decreases |ops|
  {
    if ops == [] then l else Live(LiveAll(l, ops[..|ops| - 1]), ops[|ops| - 1])
  }

  /** Every rotation gets a password that is new at its time, as the generator's loop sees to. */
  predicate FreshlyRotated(l: Life, ops: seq<Op>) {
    forall k | 0 <= k < |ops| && ops[k].Rotation? ::
      ValidPassword(ops[k].password) && IsFresh(LiveAll(l, ops[..k]).identity, ops[k].password)
  }

  /** What an operation does depends on the identity alone. */
  lemma LivesAdd(l: Life, op: Op)
    ensures var one, l' := Live(Life(l.identity, 0, 0, 0), op), Live(l, op);
            l' == Life(one.identity, l.rotations + one.rotations, l.recoveries + one.recoveries,
                       l.consumptions + one.consumptions)
  {
  }

  predicate LifeInv(l: Life) {
    && ValidIdentity(l.identity, false)
    && l.identity.generation == 1 + l.rotations + l.recoveries
    && l.consumptions + (if l.identity.armed then 1 else 0) <= 1 + l.recoveries
    && (l.identity.reason == Recovery ==> l.recoveries > 0)
  }

  /** No rotation is dated before the commissioning. */
  predicate ClockNeverBefore(ops: seq<Op>, commissionedAt: real) {
    forall op | op in ops :: op.Rotation? ==> op.now >= commissionedAt
  }

  // ------------------------------------------------------ the stored document

  class IdentityStore {
    var file: Option<Identity>

    constructor ()
      ensures file == None
    {
      file := None;
    }

    method Read(allowBadShortBoots: bool) returns (r: Result<Identity, IdentityError>)
      ensures r.Ok? <==> file.Some? && ValidIdentity(file.value, allowBadShortBoots)
      ensures r.Ok? ==> Some(r.value) == file
    {
      if file == None {
        return Err(NotCommissioned);
      }
      if !ValidIdentity(file.value, allowBadShortBoots) {
        return Err(InvalidStoredIdentity);
      }
      return Ok(file.value);
    }

    /** Creates the identity exactly once; the password is a generated one. */
    method Commission(ssid: string, password: string, now: real) returns (r: Result<Identity, IdentityError>)
      requires ValidPassword(password)
      modifies this
      ensures r.Ok? <==> ValidSsid(ssid) && now >= 0.0 && old(file) == None
      ensures r.Ok? ==> r.value == Commissioned(ssid, password, now) && ValidIdentity(r.value, false)
      ensures file == if r.Ok? then Some(r.value) else old(file)
    {
      if !ValidSsid(ssid) || now < 0.0 {
        return Err(InvalidArgument);
      }
      var identity := Commissioned(ssid, password, now);
      if file.Some? {
        return Err(AlreadyCommissioned);
      }
      file := Some(identity);
      return Ok(identity);
    }

    /** `candidates` are the generator's answers; it is asked until one is neither active nor factory password. */
    method Rotate(candidates: seq<string>, now: real) returns (r: Result<string, IdentityError>)
      requires forall i | 0 <= i < |candidates| :: ValidPassword(candidates[i])
      requires file.Some? ==> exists i | 0 <= i < |candidates| :: IsFresh(file.value, candidates[i])
      modifies this
      ensures r.Ok? <==> now >= 0.0 && old(file).Some? && ValidIdentity(old(file).value, false)
      ensures r.Ok? ==>
                && IsFirstFresh(old(file).value, candidates, r.value)
                && file == Some(Rotated(old(file).value, r.value, now))
      ensures r.Err? ==> file == old(file)
    {
      if now < 0.0 {
        return Err(InvalidArgument);
      }
      var read := Read(false);
      if read.Err? {
        return Err(read.error);
      }
      var identity, i := read.value, 0;
      while !IsFresh(identity, candidates[i])
        invariant 0 <= i < |candidates|
        invariant forall j | 0 <= j < i :: !IsFresh(identity, candidates[j])
        decreases |candidates| - i
      {
        i := i + 1;
      }
      file := Some(Rotated(identity, candidates[i], now));
      return Ok(candidates[i]);
    }

    /** Consumes the permission to start the access point; false when there is none. */
    method Consume() returns (r: Result<bool, IdentityError>)
      modifies this
      ensures r.Ok? <==> old(file).Some? && ValidIdentity(old(file).value, false)
      ensures r.Ok? ==> (r.value <==> old(file).value.armed) && file == Some(old(file).value.(armed := false))
      ensures r.Err? ==> file == old(file)
    {
      var read := Read(false);
      if read.Err? {
        return Err(read.error);
      }
      if !read.value.armed {
        return Ok(false);
      }
      file := Some(read.value.(armed := false));
      return Ok(true);
    }

    /** Records one physical boot; true when it was the third of the gesture and recovery is armed. */
    method RecordShortBoot(bootId: string, now: real) returns (r: Result<bool, IdentityError>)
      modifies this
      ensures r.Ok? <==>
                && ValidBootId(bootId) && now >= 0.0 && old(file).Some? && ValidIdentity(old(file).value, true)
                && (NextBoots(old(file).value.shortBoots, bootId, now).ThirdBoot? ==>
                      now >= old(file).value.commissionedAt)
      ensures r.Ok? ==>
                && (r.value <==> NextBoots(old(file).value.shortBoots, bootId, now).ThirdBoot?)
                && file == Some(Recorded(old(file).value, bootId, now))
                && ValidIdentity(file.value, false)
      ensures r.Err? ==> file == old(file)
    {
      if !ValidBootId(bootId) || now < 0.0 {
        return Err(InvalidArgument);
      }
      var read := Read(true);
      if read.Err? {
        return Err(read.error);
      }
      var identity, sequence := read.value, NO_BOOTS;
      if !ValidBoots(identity.shortBoots) {
        sequence := Boots([bootId], Some(now));
      } else {
        sequence := identity.shortBoots;
        var expired := sequence.ids != []
                       && (now < sequence.firstAt.value || now - sequence.firstAt.value > RECOVERY_SEQUENCE_WINDOW_S);
        if expired || sequence.ids == [] {
          sequence := Boots([bootId], Some(now));
        } else if bootId in sequence.ids {
          return Ok(false);
        } else {
          sequence := sequence.(ids := sequence.ids + [bootId]);
        }
      }
      var recovered := |sequence.ids| >= 3;
      if recovered {
        identity := identity.(activePsk := identity.factoryPsk, generation := identity.generation + 1,
                              armed := true, reason := Recovery, armedAt := now, shortBoots := NO_BOOTS);
      } else {
        identity := identity.(shortBoots := sequence);
      }
      if !ValidIdentity(identity, false) {
        return Err(InvalidNewIdentity);
      }
      file := Some(identity);
      return Ok(recovered);
    }

    /** Puts the counter back to nothing. */
    method ClearShortBoots() returns (r: Result<(), IdentityError>)
      modifies this
      ensures r.Ok? <==> old(file).Some? && ValidIdentity(old(file).value, true)
      ensures file == if r.Ok? then Some(old(file).value.(shortBoots := NO_BOOTS)) else old(file)
      ensures r.Ok? ==> ValidIdentity(file.value, false)
    {
      var read := Read(true);
      if read.Err? {
        return Err(read.error);
      }
      file := Some(read.value.(shortBoots := NO_BOOTS));
      return Ok(());
    }

    /** One operation of a life; a rotation is given the password that the generator comes up with. */
    method Perform(op: Op) returns (rotated: bool, recovered: bool, consumed: bool)
      requires file.Some?
      requires op.Rotation? ==> ValidPassword(op.password) && IsFresh(file.value, op.password)
      modifies this
      ensures file.Some?
      ensures var l := Live(Life(old(file).value, 0, 0, 0), op);
              && file.value == l.identity && l.rotations == (if rotated then 1 else 0)
              && l.recoveries == (if recovered then 1 else 0) && l.consumptions == (if consumed then 1 else 0)
    {
      rotated, recovered, consumed := false, false, false;
      match op {
        case Rotation(password, now) =>
          assert [password][0] == password;
          var r := Rotate([password], now);
          rotated := r.Ok?;
        case Consumption =>
          var r := Consume();
          consumed := r.Ok? && r.value;
        case Boot(id, at) =>
          var r := RecordShortBoot(id, at);
          recovered := r.Ok? && r.value;
        case Clearing =>
          var _ := ClearShortBoots();
      }
    }

    /** A whole life: the store ends up with the identity, and the callers with the answers, of `LiveAll`. */
    method LiveThrough(ops: seq<Op>) returns (rotations: nat, recoveries: nat, consumptions: nat)
      requires file.Some?
      requires FreshlyRotated(Life(file.value, 0, 0, 0), ops)
      modifies this
      ensures file.Some?
      ensures Life(file.value, rotations, recoveries, consumptions) == LiveAll(Life(old(file).value, 0, 0, 0), ops)
    {
      ghost var l := Life(file.value, 0, 0, 0);
      rotations, recoveries, consumptions := 0, 0, 0;
      for i := 0 to |ops|
        invariant file.Some?
        invariant Life(file.value, rotations, recoveries, consumptions) == LiveAll(l, ops[..i])
      {
        assert ops[..i + 1][..i] == ops[..i];
        var rotated, recovered, consumed := Perform(ops[i]);
        LivesAdd(LiveAll(l, ops[..i]), ops[i]);
        hide Live;
        rotations := if rotated then rotations + 1 else rotations;
        recoveries := if recovered then recoveries + 1 else recoveries;
        consumptions := if consumed then consumptions + 1 else consumptions;
      }
      assert ops[..|ops|] == ops;
    }
  }

  // ------------------------------------------------------ what every life keeps

  lemma BootsStayValid(b: ShortBoots, bootId: string, now: real)
    requires ValidBootId(bootId) && now >= 0.0
    ensures NextBoots(b, bootId, now).Progress? ==> ValidBoots(NextBoots(b, bootId, now).boots)
    ensures NextBoots(b, bootId, now).Repeated? ==> ValidBoots(b)
  {}

  lemma LiveKeepsInv(l: Life, op: Op)
    requires LifeInv(l)
    requires op.Rotation? ==> op.now >= l.identity.commissionedAt
    ensures LifeInv(Live(l, op)) && Live(l, op).identity.commissionedAt == l.identity.commissionedAt
    ensures !l.identity.armed && Live(l, op).identity.armed ==> op.Boot? && Live(l, op).recoveries == l.recoveries + 1
  {
    if op.Boot? && ValidBootId(op.id) && op.at >= 0.0 {
      BootsStayValid(l.identity.shortBoots, op.id, op.at);
    }
    hide ValidPassword, ValidSsid;
  }

  lemma {:induction false} LiveAllKeepsInv(l: Life, ops: seq<Op>)
    requires LifeInv(l) && ClockNeverBefore(ops, l.identity.commissionedAt)
    ensures LifeInv(LiveAll(l, ops)) && LiveAll(l, ops).identity.commissionedAt == l.identity.commissionedAt
    decreases |ops|
  {
    hide LifeInv, Live;
    if ops != [] {
      LiveAllKeepsInv(l, ops[..|ops| - 1]);
      LiveKeepsInv(LiveAll(l, ops[..|ops| - 1]), ops[|ops| - 1]);
    }
  }

  /**
   Authorization is conserved: over any life with no rotation dated before the
   commissioning, the identity stays valid, its generation counts rotations and
   recoveries, and the hotspot is allowed at most once plus once per recovery.
   */
  lemma AuthorizationIsConserved(ssid: string, password: string, now: real, ops: seq<Op>)
    requires ValidSsid(ssid) && ValidPassword(password) && now >= 0.0 && ClockNeverBefore(ops, now)
    ensures var l := LiveAll(Life(Commissioned(ssid, password, now), 0, 0, 0), ops);
            && ValidIdentity(l.identity, false)
            && l.identity.generation == 1 + l.rotations + l.recoveries
            && l.consumptions + (if l.identity.armed then 1 else 0) <= 1 + l.recoveries
  {
    LiveAllKeepsInv(Life(Commissioned(ssid, password, now), 0, 0, 0), ops);
  }

  /** The hypothesis is needed: a rotation keeps the identity valid exactly when not dated before the commissioning. */
  lemma RotationKeepsValidIff(d: Identity, password: string, now: real)
    requires ValidIdentity(d, false) && ValidPassword(password) && now >= 0.0
    ensures ValidIdentity(Rotated(d, password, now), false) <==> now >= d.commissionedAt
  {}

  /** And an early rotation is final: every later operation raises, and the stored identity never changes again. */
  lemma {:induction false} EarlyRotationIsFinal(l: Life, password: string, now: real, ops: seq<Op>)
    requires LifeInv(l) && ValidPassword(password) && IsFresh(l.identity, password)
    requires 0.0 <= now < l.identity.commissionedAt
    ensures LiveAll(Live(l, Rotation(password, now)), ops).identity == Rotated(l.identity, password, now)
    decreases |ops|
  {
    if ops != [] {
      EarlyRotationIsFinal(l, password, now, ops[..|ops| - 1]);
    }
    hide ValidPassword, ValidSsid;
  }
}
