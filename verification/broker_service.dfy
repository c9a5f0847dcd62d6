/**
 What the broker's requests achieve, each followed from its arrival to its release of the
 network lock while all other threads do what they like: an open, and a join that does
 not succeed, leave the access point up when no call on it raises and the window lasts; a
 join that succeeds, a close, a stop and an open that fails leave it down and the window
 over; and a scan leaves its networks in the window.
 */
module BrokerService {
  import opened Wrappers
  import opened BrokerWindow
  import opened BrokerMachine

  // ------------------------------------------------------ one thread among the others

  /** Only the holder of the network lock touches the access point. */
  lemma OnlyTheHolderSwitches(sh: Shared, t: nat, pc: Pc, a: Answer)
    requires !Holds(pc)
    ensures Move(sh, t, pc, a).sh.apUp == sh.apUp
  {
  }

  lemma OthersStandStill(s: State, e: Event, t: nat)
    requires Inv(s) && t < |s.threads| && !(e.Step? && e.thread == t)
    ensures t < |Next(s, e).threads| && Next(s, e).threads[t] == s.threads[t]
    ensures Holds(s.threads[t]) ==> Next(s, e).sh.apUp == s.sh.apUp
  {
    if e.Step? && e.thread < |s.threads| && Holds(s.threads[t]) {
      OnlyTheHolderSwitches(s.sh, e.thread, s.threads[e.thread], e.answer);
    }
    hide Move;
  }

  // ------------------------------------------------------ what is asked of a request

  /**
   An open; a join that raises or is refused, or one that succeeds; a scan that finds some
   networks; a close or a stop; an open that fails once it has its window.  All but the
   first are of window `g`.
   */
  datatype Aim =
    | Opening
    | LosingJoin(g: nat)
    | WinningJoin(g: nat)
    | Scanning(g: nat, found: seq<Network>)
    | Closing(g: nat, request: Request)
    | FailingOpen(g: nat, at: Failure)

  /** Where an open that has its window fails: at a look at the clock, or at a call that raises. */
  datatype Failure = FirstLook | TheScan | RaisingTheHotspot | SecondLook

  predicate IsLive(sh: Shared) {
    sh.w.active && sh.now < sh.w.deadline
  }

  /** The request that arrives, and whether there is a window for it. */
  predicate Arrives(aim: Aim, sh: Shared, request: Request) {
    match aim
    case Opening => request == Open && !IsLive(sh)
    case LosingJoin(g) => request == Join && IsLive(sh) && sh.w.generation == g
    case WinningJoin(g) => request == Join && IsLive(sh) && sh.w.generation == g
    case Scanning(g, _) => request == Scan && IsLive(sh) && sh.w.generation == g
    case Closing(_, close) => request == close && (request == Close || request == Stop)
    case FailingOpen(_, _) => false
  }

  /**
   How far the request is followed: no further than the release of the lock.  On the way
   no call on the access point raises, an opening meets no error at all, and the window
   is current whenever the request looks.
   */
  predicate Fits(aim: Aim, sh: Shared, pc: Pc, a: Answer) {
    && pc != Releasing(Idle) && pc != Releasing(Done) && !a.downRaises
    && (pc.Idle? ==> Arrives(aim, sh, a.request))
    && (pc.JoinCheck? || pc.ScanCheck? ==> Current(sh.w, pc.g, sh.now))
    && match aim
       case Opening => !a.raises && (pc.OpenCheck? || pc.OpenRecheck? ==> Current(sh.w, pc.g, sh.now))
       case LosingJoin(g) =>
         && (pc.JoinTry? ==> a.raises || !a.joined)
         && (pc.JoinRaised? || pc.JoinFailed? ==> Current(sh.w, g, sh.now))
         && (pc.RestoreUp? ==> !a.raises)
       case WinningJoin(g) => !a.raises && a.joined
       case Scanning(_, found) => !a.raises && a.networks == found
       case Closing(_, _) => true
       case FailingOpen(g, at) =>
         && (pc.OpenCheck? ==> (Current(sh.w, g, sh.now) <==> at != FirstLook))
         && (pc.OpenScan? ==> (a.raises <==> at == TheScan))
         && (pc.OpenUp? ==> (a.raises <==> at == RaisingTheHotspot))
         && (pc.OpenRecheck? ==> !Current(sh.w, g, sh.now))
  }

  predicate Followed(aim: Aim, s: State, t: nat, events: seq<Event>)
    decreases |events|
  {
    events != [] ==>
      && (events[0].Step? && events[0].thread == t && t < |s.threads| ==>
            Fits(aim, s.sh, s.threads[t], events[0].answer))
      && Followed(aim, Next(s, events[0]), t, events[1..])
  }

  /** Where the request can be meanwhile; when it comes to release the lock, it has done what it is for. */
  predicate OnCourse(aim: Aim, sh: Shared, pc: Pc) {
    match aim
    case Opening => Opens(sh, pc)
    case LosingJoin(g) => Loses(g, sh, pc)
    case WinningJoin(g) => g <= sh.w.generation && Wins(g, sh, pc)
    case Scanning(g, found) => g <= sh.w.generation && Scans(g, found, sh, pc)
    case Closing(g, request) => g <= sh.w.generation && Closes(g, request == Stop, sh, pc)
    case FailingOpen(g, at) => g <= sh.w.generation && Fails(g, at, sh, pc)
  }

  predicate IsOpenFor(sh: Shared, g: nat) {
    sh.w.active && sh.w.generation == g
  }

  predicate Opens(sh: Shared, pc: Pc) {
    if pc.OpenRecheck? || pc == Releasing(Idle) then sh.apUp
    else
      || pc.Idle? || pc == Releasing(OpenConsume)
      || (IsOpenPc(pc) && !pc.OpenUndo? && !pc.OpenFail? && !pc.OpenFailLock? && !pc.OpenFailDown?)
  }

  predicate Loses(g: nat, sh: Shared, pc: Pc) {
    if pc == Releasing(Idle) then sh.apUp
    else pc in {Idle, JoinEnter(g), JoinCheck(g), JoinTry(g), JoinRaised(g), JoinFailed(g), RestoreDown, RestoreUp}
  }

  predicate Wins(g: nat, sh: Shared, pc: Pc) {
    if pc == Releasing(Idle) then !sh.apUp && !IsOpenFor(sh, g)
    else pc in {Idle, JoinEnter(g), JoinCheck(g), JoinTry(g)} || (pc == JoinSucceeded(g) && !sh.apUp)
  }

  predicate Scans(g: nat, found: seq<Network>, sh: Shared, pc: Pc) {
    if pc == Releasing(Idle) then IsOpenFor(sh, g) ==> sh.w.networks == found
    else pc in {Idle, ScanEnter(g), ScanCheck(g), ScanRun(g), ScanPublish(g, found)}
  }

  predicate Closes(g: nat, last: bool, sh: Shared, pc: Pc) {
    if pc == Releasing(if last then Done else Idle) then !sh.apUp && !IsOpenFor(sh, g)
    else
      || pc.Idle? || pc == CloseMark(last) || (pc.StopSet? && last)
      || ((pc == CloseLock(last) || pc == CloseDown(last)) && !IsOpenFor(sh, g))
  }

  predicate Fails(g: nat, at: Failure, sh: Shared, pc: Pc) {
    if pc == Releasing(Idle) then !sh.apUp && !IsOpenFor(sh, g)
    else if pc.OpenFailLock? || pc.OpenFailDown? then !IsOpenFor(sh, g)
    else OfOpen(pc, g) && Reaches(pc, at)
  }

  /** An open of window `g` before it has closed it. */
  predicate OfOpen(pc: Pc, g: nat) {
    || ((pc.OpenEnter? || pc.OpenCheck? || pc.OpenScan? || pc.OpenPublish? || pc.OpenUp? || pc.OpenRecheck?
         || pc.OpenUndo? || pc.OpenFail?) && pc.g == g)
    || pc == Releasing(OpenFail(g))
  }

  /** The open does not get past its failure. */
  predicate Reaches(pc: Pc, at: Failure) {
    && (pc.OpenScan? ==> at != FirstLook)
    && (pc.OpenPublish? || pc.OpenUp? ==> at == RaisingTheHotspot || at == SecondLook)
    && (pc.OpenRecheck? || pc.OpenUndo? ==> at == SecondLook)
  }

  // ------------------------------------------------------ and gets there

  /** How many steps of its own a request makes from its arrival on. */
  function StepsOf(aim: Aim): nat {
    match aim
    case Opening => 13
    case LosingJoin(_) => 7
    case WinningJoin(_) => 5
    case Scanning(_, _) => 5
    case Closing(_, request) => if request == Stop then 5 else 4
    case FailingOpen(_, at) => 1 + FailsIn(OpenEnter(0), at)
  }

  function AfterPublish(at: Failure): nat {
    if at == RaisingTheHotspot then 5 else 7
  }

  function AfterLook(at: Failure): nat {
    if at == TheScan then 5 else 2 + AfterPublish(at)
  }

  function AfterEntry(at: Failure): nat {
    if at == FirstLook then 5 else 1 + AfterLook(at)
  }

  function FailsIn(pc: Pc, at: Failure): nat {
    match pc
    case OpenEnter(_) => 1 + AfterEntry(at)
    case OpenCheck(_) => AfterEntry(at)
    case OpenScan(_) => AfterLook(at)
    case OpenPublish(_, _) => 1 + AfterPublish(at)
    case OpenUp(_) => AfterPublish(at)
    case OpenRecheck(_) => 6
    case OpenUndo(_) => 5
    case Releasing(OpenFail(_)) => 4
    case OpenFail(_) => 3
    case OpenFailLock => 2
    case OpenFailDown => 1
    case _ => 0
  }

  /** How many it has still to make. */
  function StepsLeft(aim: Aim, pc: Pc): nat {
    if aim.FailingOpen? && !pc.Idle? then FailsIn(pc, aim.at)
    else
    match pc
    case Idle => StepsOf(aim)
    case OpenLock => 12
    case OpenClean => 11
    case Releasing(OpenConsume) => 10
    case OpenConsume => 9
    case OpenArm(_) => 8
    case OpenSpawn(_) => 7
    case OpenEnter(_) => 6
    case OpenCheck(_) => 5
    case OpenScan(_) => 4
    case OpenPublish(_, _) => 3
    case OpenUp(_) => 2
    case OpenRecheck(_) => 1
    case JoinEnter(_) => if aim.LosingJoin? then 6 else 4
    case JoinCheck(_) => if aim.LosingJoin? then 5 else 3
    case JoinTry(_) => if aim.LosingJoin? then 4 else 2
    case JoinRaised(_) => 3
    case JoinFailed(_) => 3
    case RestoreDown => 2
    case RestoreUp => 1
    case JoinSucceeded(_) => 1
    case ScanEnter(_) => 4
    case ScanCheck(_) => 3
    case ScanRun(_) => 2
    case ScanPublish(_, _) => 1
    case StopSet => 4
    case CloseMark(_) => 3
    case CloseLock(_) => 2
    case CloseDown(_) => 1
    case _ => 0
  }

  /** A step that finds the network lock taken changes nothing. */
  predicate Blocked(sh: Shared, pc: Pc) {
    && sh.lock.Some?
    && (pc.OpenLock? || pc.OpenEnter? || pc.OpenFailLock? || pc.JoinEnter? || pc.ScanEnter? || pc.CloseLock?)
  }

  /** The steps that thread `t` makes in a run, not counting those that find the lock taken. */
  function StepsMade(s: State, t: nat, events: seq<Event>): nat
    decreases |events|
  {
    if events == [] then 0
    else
      var e := events[0];
      (if e.Step? && e.thread == t && t < |s.threads| && !Blocked(s.sh, s.threads[t]) then 1 else 0)
      + StepsMade(Next(s, e), t, events[1..])
  }

  // ------------------------------------------------------ it stays on course

  lemma Arrival(aim: Aim, sh: Shared, t: nat, a: Answer)
    requires OnCourse(aim, sh, Idle) && Arrives(aim, sh, a.request)
    ensures var e := Move(sh, t, Idle, a);
            OnCourse(aim, e.sh, e.pc) && StepsLeft(aim, e.pc) == StepsLeft(aim, Idle) - 1
  {
    hide MoveOpen, MoveScan, MoveJoin, MoveClose, MoveWatch;
  }

  lemma MoveOfOpen(sh: Shared, t: nat, pc: Pc, a: Answer)
    requires IsOpenPc(pc)
    ensures Move(sh, t, pc, a) == MoveOpen(sh, t, pc, a)
  {
    hide StartRequest, MoveOpen, MoveJoin, MoveScan, MoveClose, MoveWatch;
  }

  lemma OpeningStays(sh: Shared, t: nat, pc: Pc, a: Answer)
    requires Opens(sh, pc) && IsOpenPc(pc) && Fits(Opening, sh, pc, a)
    ensures Opens(MoveOpen(sh, t, pc, a).sh, MoveOpen(sh, t, pc, a).pc)
    ensures StepsLeft(Opening, MoveOpen(sh, t, pc, a).pc)
         == StepsLeft(Opening, pc) - (if Blocked(sh, pc) then 0 else 1)
  {
    hide Arrives;
  }

  lemma OpeningMove(sh: Shared, t: nat, pc: Pc, a: Answer)
    requires !pc.Idle? && OnCourse(Opening, sh, pc) && Fits(Opening, sh, pc, a)
    ensures OnCourse(Opening, Move(sh, t, pc, a).sh, Move(sh, t, pc, a).pc)
    ensures StepsLeft(Opening, Move(sh, t, pc, a).pc)
         == StepsLeft(Opening, pc) - (if Blocked(sh, pc) then 0 else 1)
  {
    hide Loses, Wins, Scans, Closes, Fails, FailsIn, Arrives;
    if pc.Releasing? {
      hide MoveOpen, Fits;
    } else {
      MoveOfOpen(sh, t, pc, a);
      OpeningStays(sh, t, pc, a);
      hide Move, Opens, Fits;
    }
  }

  lemma MoveOfJoin(sh: Shared, t: nat, pc: Pc, a: Answer)
    requires IsJoinPc(pc)
    ensures Move(sh, t, pc, a) == MoveJoin(sh, t, pc, a)
  {
    hide StartRequest, MoveOpen, MoveJoin, MoveScan, MoveClose, MoveWatch;
  }

  lemma LosingStays(g: nat, sh: Shared, t: nat, pc: Pc, a: Answer)
    requires Loses(g, sh, pc) && IsJoinPc(pc) && Fits(LosingJoin(g), sh, pc, a)
    ensures Loses(g, MoveJoin(sh, t, pc, a).sh, MoveJoin(sh, t, pc, a).pc)
  {
    hide Arrives;
  }

  lemma LosingCounts(g: nat, sh: Shared, t: nat, pc: Pc, a: Answer)
    requires IsJoinPc(pc) && !pc.JoinSucceeded? && Fits(LosingJoin(g), sh, pc, a) && Loses(g, sh, pc)
    ensures StepsLeft(LosingJoin(g), MoveJoin(sh, t, pc, a).pc)
         == StepsLeft(LosingJoin(g), pc) - (if Blocked(sh, pc) then 0 else 1)
  {
    hide Arrives;
  }

  lemma LosingMove(g: nat, sh: Shared, t: nat, pc: Pc, a: Answer)
    requires !pc.Idle? && OnCourse(LosingJoin(g), sh, pc) && Fits(LosingJoin(g), sh, pc, a)
    ensures OnCourse(LosingJoin(g), Move(sh, t, pc, a).sh, Move(sh, t, pc, a).pc)
    ensures StepsLeft(LosingJoin(g), Move(sh, t, pc, a).pc)
         == StepsLeft(LosingJoin(g), pc) - (if Blocked(sh, pc) then 0 else 1)
  {
    assert IsJoinPc(pc);
    MoveOfJoin(sh, t, pc, a);
    LosingStays(g, sh, t, pc, a);
    LosingCounts(g, sh, t, pc, a);
    hide Move, MoveJoin, Loses, Fits, StepsLeft, Blocked;
  }

  lemma WinningMove(g: nat, sh: Shared, t: nat, pc: Pc, a: Answer)
    requires !pc.Idle? && OnCourse(WinningJoin(g), sh, pc) && Fits(WinningJoin(g), sh, pc, a)
    ensures OnCourse(WinningJoin(g), Move(sh, t, pc, a).sh, Move(sh, t, pc, a).pc)
    ensures StepsLeft(WinningJoin(g), Move(sh, t, pc, a).pc)
         == StepsLeft(WinningJoin(g), pc) - (if Blocked(sh, pc) then 0 else 1)
  {
    hide Opens, Loses, Scans, Closes, Fails, FailsIn;
    MoveOfJoin(sh, t, pc, a);
    hide Move, Arrives;
  }

  lemma ScanningMove(g: nat, found: seq<Network>, sh: Shared, t: nat, pc: Pc, a: Answer)
    requires !pc.Idle? && OnCourse(Scanning(g, found), sh, pc) && Fits(Scanning(g, found), sh, pc, a)
    ensures OnCourse(Scanning(g, found), Move(sh, t, pc, a).sh, Move(sh, t, pc, a).pc)
    ensures StepsLeft(Scanning(g, found), Move(sh, t, pc, a).pc)
         == StepsLeft(Scanning(g, found), pc) - (if Blocked(sh, pc) then 0 else 1)
  {
    hide Opens, Loses, Wins, Closes, Fails, FailsIn;
    hide StartRequest, Arrives, MoveOpen, MoveJoin, MoveClose, MoveWatch;
  }

  lemma MoveOfClose(sh: Shared, t: nat, pc: Pc, a: Answer)
    requires IsClosePc(pc)
    ensures Move(sh, t, pc, a) == MoveClose(sh, t, pc, a)
  {
    hide StartRequest, MoveOpen, MoveJoin, MoveScan, MoveClose, MoveWatch;
  }

  lemma ClosingCounts(g: nat, request: Request, sh: Shared, t: nat, pc: Pc, a: Answer)
    requires IsClosePc(pc)
    ensures StepsLeft(Closing(g, request), Move(sh, t, pc, a).pc)
         == StepsLeft(Closing(g, request), pc) - (if Blocked(sh, pc) then 0 else 1)
  {
    hide StartRequest, MoveOpen, MoveJoin, MoveScan, MoveWatch;
  }

  lemma ClosingStays(g: nat, last: bool, sh: Shared, t: nat, pc: Pc, a: Answer)
    requires g <= sh.w.generation && Closes(g, last, sh, pc) && IsClosePc(pc) && !a.downRaises
    ensures Closes(g, last, MoveClose(sh, t, pc, a).sh, MoveClose(sh, t, pc, a).pc)
    ensures g <= MoveClose(sh, t, pc, a).sh.w.generation
  {
  }

  lemma ClosingMove(g: nat, request: Request, sh: Shared, t: nat, pc: Pc, a: Answer)
    requires !pc.Idle? && OnCourse(Closing(g, request), sh, pc) && Fits(Closing(g, request), sh, pc, a)
    ensures OnCourse(Closing(g, request), Move(sh, t, pc, a).sh, Move(sh, t, pc, a).pc)
    ensures StepsLeft(Closing(g, request), Move(sh, t, pc, a).pc)
         == StepsLeft(Closing(g, request), pc) - (if Blocked(sh, pc) then 0 else 1)
  {
    assert IsClosePc(pc);
    ClosingCounts(g, request, sh, t, pc, a);
    MoveOfClose(sh, t, pc, a);
    ClosingStays(g, request == Stop, sh, t, pc, a);
    hide StepsLeft, Blocked, Move, MoveClose, Fits, Closes;
  }

  lemma FailingCounts(g: nat, at: Failure, sh: Shared, t: nat, pc: Pc, a: Answer)
    requires OfOpen(pc, g) || pc.OpenFailLock? || pc.OpenFailDown?
    requires !pc.Releasing? && Reaches(pc, at) && Fits(FailingOpen(g, at), sh, pc, a)
    ensures FailsIn(MoveOpen(sh, t, pc, a).pc, at) == FailsIn(pc, at) - (if Blocked(sh, pc) then 0 else 1)
  {
  }

  lemma FailingGoesOn(g: nat, at: Failure, sh: Shared, t: nat, pc: Pc, a: Answer)
    requires OfOpen(pc, g) && !pc.Releasing? && Reaches(pc, at) && Fits(FailingOpen(g, at), sh, pc, a)
    ensures Fails(g, at, MoveOpen(sh, t, pc, a).sh, MoveOpen(sh, t, pc, a).pc)
  {
  }

  lemma FailingCleansUp(g: nat, at: Failure, sh: Shared, t: nat, pc: Pc, a: Answer)
    requires (pc.OpenFailLock? || pc.OpenFailDown?) && !IsOpenFor(sh, g) && !a.downRaises
    ensures Fails(g, at, MoveOpen(sh, t, pc, a).sh, MoveOpen(sh, t, pc, a).pc)
  {
  }

  lemma FailingReleases(g: nat, at: Failure, sh: Shared, t: nat, a: Answer)
    requires g <= sh.w.generation
    ensures var e := Move(sh, t, Releasing(OpenFail(g)), a);
            && OnCourse(FailingOpen(g, at), e.sh, e.pc) && StepsLeft(FailingOpen(g, at), e.pc) == 3
            && StepsLeft(FailingOpen(g, at), Releasing(OpenFail(g))) == 4
            && !Blocked(sh, Releasing(OpenFail(g)))
  {
    hide Opens, Loses, Wins, Scans, Closes;
  }

  lemma FailingMove(g: nat, at: Failure, sh: Shared, t: nat, pc: Pc, a: Answer)
    requires !pc.Idle? && OnCourse(FailingOpen(g, at), sh, pc) && Fits(FailingOpen(g, at), sh, pc, a)
    ensures OnCourse(FailingOpen(g, at), Move(sh, t, pc, a).sh, Move(sh, t, pc, a).pc)
    ensures StepsLeft(FailingOpen(g, at), Move(sh, t, pc, a).pc)
         == StepsLeft(FailingOpen(g, at), pc) - (if Blocked(sh, pc) then 0 else 1)
  {
    if pc.Releasing? {
      assert pc == Releasing(OpenFail(g));
      FailingReleases(g, at, sh, t, a);
      hide *;
    } else {
      if pc.OpenFailLock? || pc.OpenFailDown? {
        FailingCleansUp(g, at, sh, t, pc, a);
      } else {
        FailingGoesOn(g, at, sh, t, pc, a);
      }
      MoveOfOpen(sh, t, pc, a);
      FailingCounts(g, at, sh, t, pc, a);
      MoveKeepsWindow(sh, t, pc, a);
      hide Move, MoveOpen, FailsIn, Blocked, Fits, Fails;
    }
  }

  predicate StateOnCourse(aim: Aim, s: State, t: nat) {
    t < |s.threads| && OnCourse(aim, s.sh, s.threads[t])
  }

  lemma OwnStepStaysOnCourse(aim: Aim, s: State, t: nat, a: Answer)
    requires StateOnCourse(aim, s, t) && Fits(aim, s.sh, s.threads[t], a)
    ensures StateOnCourse(aim, Next(s, Step(t, a)), t)
    ensures StepsLeft(aim, Next(s, Step(t, a)).threads[t])
         == StepsLeft(aim, s.threads[t]) - (if Blocked(s.sh, s.threads[t]) then 0 else 1)
  {
    if s.threads[t].Idle? {
      Arrival(aim, s.sh, t, a);
    } else {
      match aim {
        case Opening => OpeningMove(s.sh, t, s.threads[t], a);
        case LosingJoin(g) => LosingMove(g, s.sh, t, s.threads[t], a);
        case WinningJoin(g) => WinningMove(g, s.sh, t, s.threads[t], a);
        case Scanning(g, found) => ScanningMove(g, found, s.sh, t, s.threads[t], a);
        case FailingOpen(g, at) => FailingMove(g, at, s.sh, t, s.threads[t], a);
        case Closing(g, request) => ClosingMove(g, request, s.sh, t, s.threads[t], a);
      }
    }
    hide Move, OnCourse, StepsLeft, Blocked;
  }

  /** Generations never go back, and an ended window stays ended; only the lock's holder stores a scan. */
  predicate WindowGoesOn(sh: Shared, sh': Shared) {
    && sh'.w.generation >= sh.w.generation
    && (sh'.w.generation == sh.w.generation && sh'.w.active ==> sh.w.active)
  }

  predicate ScansOnlyLocked(sh: Shared, pc: Pc, sh': Shared) {
    !Holds(pc) && sh'.w.generation == sh.w.generation && sh'.w.active ==> sh'.w.networks == sh.w.networks
  }

  predicate KeptBy(sh: Shared, pc: Pc, sh': Shared) {
    WindowGoesOn(sh, sh') && ScansOnlyLocked(sh, pc, sh')
  }

  lemma OpenGoesOn(sh: Shared, t: nat, pc: Pc, a: Answer)
    ensures WindowGoesOn(sh, MoveOpen(sh, t, pc, a).sh)
  {
  }

  lemma OpenKeeps(sh: Shared, t: nat, pc: Pc, a: Answer)
    ensures KeptBy(sh, pc, MoveOpen(sh, t, pc, a).sh)
  {
    OpenGoesOn(sh, t, pc, a);
    hide WindowGoesOn;
  }

  lemma JoinKeeps(sh: Shared, t: nat, pc: Pc, a: Answer)
    ensures KeptBy(sh, pc, MoveJoin(sh, t, pc, a).sh)
  {
    if !pc.JoinSucceeded? {
      assert MoveJoin(sh, t, pc, a).sh.w == sh.w;
      hide MoveJoin;
    }
  }

  lemma ScanKeeps(sh: Shared, t: nat, pc: Pc, a: Answer)
    ensures KeptBy(sh, pc, MoveScan(sh, t, pc, a).sh)
  {
    if !pc.ScanPublish? {
      assert MoveScan(sh, t, pc, a).sh.w == sh.w;
      hide MoveScan;
    }
  }

  lemma CloseKeeps(sh: Shared, t: nat, pc: Pc, a: Answer)
    ensures KeptBy(sh, pc, MoveClose(sh, t, pc, a).sh)
  {
  }

  lemma WatchKeeps(sh: Shared, t: nat, pc: Pc, a: Answer)
    ensures KeptBy(sh, pc, MoveWatch(sh, t, pc, a).sh)
  {
  }

  lemma MoveKeepsWindow(sh: Shared, t: nat, pc: Pc, a: Answer)
    ensures KeptBy(sh, pc, Move(sh, t, pc, a).sh)
  {
    OpenKeeps(sh, t, pc, a);
    JoinKeeps(sh, t, pc, a);
    ScanKeeps(sh, t, pc, a);
    CloseKeeps(sh, t, pc, a);
    WatchKeeps(sh, t, pc, a);
    hide MoveOpen, MoveJoin, MoveScan, MoveClose, MoveWatch, IsOpenPc, IsScanPc, IsClosePc, IsWatchPc, Holds;
  }

  lemma OtherStepStaysOnCourse(aim: Aim, s: State, t: nat, e: Event)
    requires Inv(s) && StateOnCourse(aim, s, t) && !(e.Step? && e.thread == t)
    ensures StateOnCourse(aim, Next(s, e), t) && Next(s, e).threads[t] == s.threads[t]
  {
    OthersStandStill(s, e, t);
    if e.Step? && e.thread < |s.threads| {
      MoveKeepsWindow(s.sh, e.thread, s.threads[e.thread], e.answer);
    }
    var sh' := Next(s, e).sh;
    assert WindowGoesOn(s.sh, sh');
    assert Holds(s.threads[t]) ==> ScansOnlyLocked(s.sh, Idle, sh');
    hide Next, Inv, Move;
  }

  lemma {:induction false} StaysOnCourse(aim: Aim, s: State, t: nat, events: seq<Event>)
    requires Inv(s) && StateOnCourse(aim, s, t) && Followed(aim, s, t, events)
    ensures StateOnCourse(aim, Run(s, events), t)
    ensures StepsLeft(aim, Run(s, events).threads[t]) == StepsLeft(aim, s.threads[t]) - StepsMade(s, t, events)
    decreases |events|
  {
    hide StepsLeft, Blocked;
    if events != [] {
      var e := events[0];
      if e.Step? && e.thread == t {
        OwnStepStaysOnCourse(aim, s, t, e.answer);
      } else {
        OtherStepStaysOnCourse(aim, s, t, e);
      }
      NextKeepsInv(s, e);
      StaysOnCourse(aim, Next(s, e), t, events[1..]);
    }
  }

  /** The release of the network lock with which the request ends. */
  function EndOf(aim: Aim): Pc {
    Releasing(if aim.Closing? && aim.request == Stop then Done else Idle)
  }

  lemma FailureEnds(g: nat, at: Failure, sh: Shared, pc: Pc)
    requires Fails(g, at, sh, pc)
    ensures FailsIn(pc, at) == 0 <==> pc == Releasing(Idle)
    ensures !pc.Idle?
  {
  }

  lemma ReleasesAtLast(aim: Aim, sh: Shared, pc: Pc)
    requires OnCourse(aim, sh, pc)
    ensures StepsLeft(aim, pc) == 0 <==> pc == EndOf(aim)
  {
    if aim.FailingOpen? {
      FailureEnds(aim.g, aim.at, sh, pc);
      hide Fails, FailsIn;
    } else {
      hide Fails, FailsIn;
    }
  }

  /** In any reachable state a request on course stays on course, and is at its end exactly after its steps. */
  lemma EndsOnCourse(aim: Aim, s0: State, before: seq<Event>, t: nat, events: seq<Event>)
    requires Initial(s0) && StateOnCourse(aim, Run(s0, before), t) && Followed(aim, Run(s0, before), t, events)
    ensures var s, s' := Run(s0, before), Run(Run(s0, before), events);
            && StateOnCourse(aim, s', t)
            && (s'.threads[t] == EndOf(aim) <==> StepsMade(s, t, events) == StepsLeft(aim, s.threads[t]))
            && (s'.threads[t] == EndOf(aim) ==> s'.sh.lock == Some(t))
  {
    var s := Run(s0, before);
    RunKeepsInv(s0, before);
    RunKeepsInv(s, events);
    hide Run, OnCourse, StepsLeft, Followed, StepsMade;
    StaysOnCourse(aim, s, t, events);
    ReleasesAtLast(aim, Run(s, events).sh, Run(s, events).threads[t]);
  }

  // ------------------------------------------------------ main results

  /**
   A join that raises or is refused brings the hotspot back: whatever the other threads
   do meanwhile, if no call on the access point raised and the window was current whenever
   the join looked, the access point is up when it comes to release the lock.  It does so
   after seven steps of its own, four of them after it has found the window current.
   */
  lemma LostJoinRestoresHotspot(s0: State, before: seq<Event>, t: nat, g: nat, events: seq<Event>)
    requires Initial(s0) && t < |Run(s0, before).threads| && Run(s0, before).threads[t] in {Idle, JoinTry(g)}
    requires Followed(LosingJoin(g), Run(s0, before), t, events)
    ensures var s, s' := Run(s0, before), Run(Run(s0, before), events);
            && t < |s'.threads|
            && (s'.threads[t] == Releasing(Idle) <==>
                  StepsMade(s, t, events) == if s.threads[t].Idle? then 7 else 4)
            && (s'.threads[t] == Releasing(Idle) ==> s'.sh.apUp && s'.sh.lock == Some(t))
  {
    EndsOnCourse(LosingJoin(g), s0, before, t, events);
    hide Run, Followed, StepsMade, Inv, Initial;
  }

  /** A join that succeeds leaves the access point down, and its window is over for good. */
  lemma WonJoinEndsWindow(s0: State, before: seq<Event>, t: nat, g: nat, events: seq<Event>)
    requires Initial(s0) && t < |Run(s0, before).threads| && Run(s0, before).threads[t] in {Idle, JoinTry(g)}
    requires g <= Run(s0, before).sh.w.generation && Followed(WinningJoin(g), Run(s0, before), t, events)
    ensures var s, s' := Run(s0, before), Run(Run(s0, before), events);
            && t < |s'.threads|
            && (s'.threads[t] == Releasing(Idle) <==>
                  StepsMade(s, t, events) == if s.threads[t].Idle? then 5 else 2)
            && (s'.threads[t] == Releasing(Idle) ==> !s'.sh.apUp && !(s'.sh.w.active && s'.sh.w.generation == g))
  {
    EndsOnCourse(WinningJoin(g), s0, before, t, events);
    hide Run, Followed, StepsMade, Inv, Initial;
  }

  /** An open that meets no error, and finds its window current when it looks, ends with the access point up. */
  lemma OpenRaisesHotspot(s0: State, before: seq<Event>, t: nat, events: seq<Event>)
    requires Initial(s0) && t < |Run(s0, before).threads| && Run(s0, before).threads[t].Idle?
    requires Followed(Opening, Run(s0, before), t, events)
    ensures var s, s' := Run(s0, before), Run(Run(s0, before), events);
            && t < |s'.threads|
            && (s'.threads[t] == Releasing(Idle) <==> StepsMade(s, t, events) == 13)
            && (s'.threads[t] == Releasing(Idle) ==> s'.sh.apUp && s'.sh.lock == Some(t))
  {
    EndsOnCourse(Opening, s0, before, t, events);
    hide Run, Followed, StepsMade, Inv, Initial;
  }

  /** A close or a stop whose teardown does not raise ends the window there was and leaves the access point down. */
  lemma CloseEndsWindow(s0: State, before: seq<Event>, t: nat, request: Request, g: nat, events: seq<Event>)
    requires Initial(s0) && t < |Run(s0, before).threads| && Run(s0, before).threads[t].Idle?
    requires request in {Close, Stop} && g <= Run(s0, before).sh.w.generation
    requires Followed(Closing(g, request), Run(s0, before), t, events)
    ensures var s, s' := Run(s0, before), Run(Run(s0, before), events);
            var end := Releasing(if request == Stop then Done else Idle);
            && t < |s'.threads|
            && (s'.threads[t] == end <==> StepsMade(s, t, events) == if request == Stop then 5 else 4)
            && (s'.threads[t] == end ==> !s'.sh.apUp && !(s'.sh.w.active && s'.sh.w.generation == g))
  {
    EndsOnCourse(Closing(g, request), s0, before, t, events);
    hide Run, Followed, StepsMade, Inv, Initial;
  }

  /**
   An open that fails once it has its window, wherever it fails, leaves no window and no
   hotspot behind when its cleanup does not raise.
   */
  lemma FailedOpenEndsWindow(s0: State, before: seq<Event>, t: nat, g: nat, at: Failure, events: seq<Event>)
    requires Initial(s0) && t < |Run(s0, before).threads| && Run(s0, before).threads[t] == OpenEnter(g)
    requires g <= Run(s0, before).sh.w.generation && Followed(FailingOpen(g, at), Run(s0, before), t, events)
    ensures var s, s' := Run(s0, before), Run(Run(s0, before), events);
            && t < |s'.threads|
            && (s'.threads[t] == Releasing(Idle) <==>
                  StepsMade(s, t, events) ==
                    match at case FirstLook => 6 case TheScan => 7 case RaisingTheHotspot => 9 case SecondLook => 11)
            && (s'.threads[t] == Releasing(Idle) ==> !s'.sh.apUp && !(s'.sh.w.active && s'.sh.w.generation == g))
  {
    EndsOnCourse(FailingOpen(g, at), s0, before, t, events);
    hide Run, Followed, StepsMade, Inv, Initial;
  }

  /** A scan that meets no error leaves what it found in the window, for as long as that window is open. */
  lemma ScanIsPublished(s0: State, before: seq<Event>, t: nat, g: nat, found: seq<Network>, events: seq<Event>)
    requires Initial(s0) && t < |Run(s0, before).threads| && Run(s0, before).threads[t].Idle?
    requires g <= Run(s0, before).sh.w.generation && Followed(Scanning(g, found), Run(s0, before), t, events)
    ensures var s, s' := Run(s0, before), Run(Run(s0, before), events);
            && t < |s'.threads|
            && (s'.threads[t] == Releasing(Idle) <==> StepsMade(s, t, events) == 5)
            && (s'.threads[t] == Releasing(Idle) && s'.sh.w.active && s'.sh.w.generation == g ==>
                  s'.sh.w.networks == found)
  {
    EndsOnCourse(Scanning(g, found), s0, before, t, events);
    hide Run, Followed, StepsMade, Inv, Initial;
  }
}
