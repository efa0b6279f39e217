/** Opening and closing a GPU device file: `nvidia_open` and `nvidia_close` in
    nvidia-geforce-340.107/nv.c. Opens and closes run under the device's lock, one at a time; every
    point where an open can fail is a choice of the environment. */
module DeviceOpen {
  import opened Runs

  /** What the environment decides about one open: whether the allocations for the file succeed,
      whether the minor number and the PCI device exist, and how each step of a first open goes. */
  datatype Oracle = Oracle(
    fileAllocs: bool,
    minorFound: bool,
    deviceId: bool,
    isrStack: bool,
    cfgchkStack: bool,
    isrBhStack: bool,
    timerStack: bool,
    irqGranted: bool,
    adapterStarts: bool)

  datatype Stacks = Stacks(isr: bool, cfgchk: bool, isrBh: bool, timer: bool)

  const NO_STACKS := Stacks(false, false, false, false)
  const ALL_STACKS := Stacks(true, true, true, true)

  datatype Rc = Success | Enomem | Enodev | Enxio | Ebusy | Eio

  /** `gvi` tells the two kinds of device apart; `persistent` is NV_FLAG_PERSISTENT_SW_STATE, which
      the resource manager sets and clears. `irq` is how often the interrupt handler is registered, and
      `stacks` says which stack pointers are set; `orphans` counts the stacks whose only pointer was
      overwritten. `handles` records opens that succeeded and were not closed. */
  datatype State = State(
    gvi: bool,
    persistent: bool,
    flagOpen: bool,
    usage: int,
    irq: nat,
    stacks: Stacks,
    orphans: nat,
    handles: nat)

  datatype Event = Open(o: Oracle) | Close | SetPersistent(on: bool)

  function Init(gvi: bool): State {
    State(gvi, false, false, 0, 0, NO_STACKS, 0, 0)
  }

  /** The four stack allocations, in order, stopping at the first that fails. */
  function AllocStacks(was: Stacks, o: Oracle): Stacks {
    if !o.isrStack then was.(isr := false)
    else if !o.cfgchkStack then was.(isr := true, cfgchk := false)
    else if !o.isrBhStack then was.(isr := true, cfgchk := true, isrBh := false)
    else Stacks(true, true, true, o.timerStack)
  }

  function One(b: bool): nat {
    if b then 1 else 0
  }

  /** The stacks that are set when their pointer is assigned anew. */
  function Overwritten(was: Stacks, o: Oracle): nat {
    One(was.isr)
    + (if o.isrStack then One(was.cfgchk) else 0)
    + (if o.isrStack && o.cfgchkStack then One(was.isrBh) else 0)
    + (if o.isrStack && o.cfgchkStack && o.isrBhStack then One(was.timer) else 0)
  }

  /** `free_irq` takes one registration away; where there is none it only warns. */
  function FreeIrq(irq: nat): nat {
    if irq > 0 then irq - 1 else 0
  }

  /** The part of an open that runs when the device is not open yet, up to the `failed` label. */
  function FirstOpen(s: State, o: Oracle): (State, Rc) {
    if !o.deviceId then (s, Enxio) else
    var s1 := if s.persistent then s
              else s.(stacks := AllocStacks(s.stacks, o), orphans := s.orphans + Overwritten(s.stacks, o));
    if !s.persistent && s1.stacks != ALL_STACKS then (s1, Enomem)
    else if s.gvi then
      if o.irqGranted then (s1.(irq := s1.irq + 1, flagOpen := true), Success) else (s1, Ebusy)
    else
      var s2 := if !s.persistent && o.irqGranted then s1.(irq := s1.irq + 1) else s1;
      if !s.persistent && !o.irqGranted then (s1, Ebusy)
      else if !o.adapterStarts then (s2.(irq := FreeIrq(s2.irq)), Eio)
      else (s2.(flagOpen := true), Success)
  }

  function OpenDevice(s: State, o: Oracle): (State, Rc) {
    if !o.fileAllocs then (s, Enomem)
    else if !o.minorFound then (s, Enodev)
    else
      var (s1, rc) := if s.flagOpen then (s, Success) else FirstOpen(s, o);
      if rc == Success then (s1.(usage := s1.usage + 1, handles := s1.handles + 1), rc)
      else (s1.(stacks := NO_STACKS), rc)
  }

  function CloseDevice(s: State): State
    requires s.handles > 0
  {
    var s1 := s.(usage := s.usage - 1, handles := s.handles - 1);
    if s1.usage != 0 then s1 else
    var s2 := if s.gvi || !s.persistent then s1.(irq := FreeIrq(s1.irq)) else s1;
    s2.(flagOpen := false, stacks := if s.persistent then s2.stacks else NO_STACKS)
  }

  function Step(s: State, e: Event): State {
    match e
    case Open(o) => OpenDevice(s, o).0
    case Close => if s.handles > 0 then CloseDevice(s) else s
    case SetPersistent(on) => s.(persistent := on)
  }

  // ------------------------------------------------------------------ outside persistence mode

  /** Usage counts the open handles; flag, one registration of the interrupt handler and all four stacks
      are there together, exactly while somebody has the device open; and no stack is lost. */
  predicate Consistent(s: State) {
    && s.usage == s.handles
    && (s.flagOpen <==> s.usage > 0)
    && s.irq == One(s.flagOpen)
    && s.stacks == (if s.flagOpen then ALL_STACKS else NO_STACKS)
    && s.orphans == 0
  }

  /** The same, of GVI devices and others, after every run of opens and closes. */
  lemma RunStaysConsistent(gvi: bool, es: seq<Event>)
    requires forall i :: 0 <= i < |es| ==> !es[i].SetPersistent?
    ensures Consistent(Exec(Step, Init(gvi), es)) && !Exec(Step, Init(gvi), es).persistent
  {
    RunFrom(Init(gvi), es);
  }

  lemma {:induction false} RunFrom(s: State, es: seq<Event>)
    requires Consistent(s) && !s.persistent
    requires forall i :: 0 <= i < |es| ==> !es[i].SetPersistent?
    ensures Consistent(Exec(Step, s, es)) && !Exec(Step, s, es).persistent
    decreases |es|
  {
    if es != [] {
      RunFrom(Step(s, es[0]), es[1..]);
    }
  }

  /** Persistence mode is on when a first open succeeds or the last handle is closed. */
  predicate PersistenceDecides(s: State, e: Event) {
    && s.persistent
    && match e
       case Open(o) => !s.flagOpen && OpenDevice(s, o).1 == Success
       case Close => s.handles == 1
       case SetPersistent(_) => false
  }

  /** One event, the mode switched on or not: the device stays consistent exactly if it is not that. */
  lemma StepStaysConsistentIff(s: State, e: Event)
    requires Consistent(s)
    ensures Consistent(Step(s, e)) <==> !PersistenceDecides(s, e)
  {
  }

  ghost predicate ConsistentThroughout(s: State, es: seq<Event>)
    decreases |es|
  {
    Consistent(s) && (es != [] ==> ConsistentThroughout(Step(s, es[0]), es[1..]))
  }

  ghost predicate NeverDecides(s: State, es: seq<Event>)
    decreases |es|
  {
    es != [] ==> !PersistenceDecides(s, es[0]) && NeverDecides(Step(s, es[0]), es[1..])
  }

  /** A run in which the mode is switched on and off as well is consistent all along if and only if no first
      open succeeds and no last handle is closed while it is on. */
  lemma {:induction false} ConsistentThroughoutIff(s: State, es: seq<Event>)
    requires Consistent(s)
    ensures ConsistentThroughout(s, es) <==> NeverDecides(s, es)
    decreases |es|
  {
    if es != [] {
      StepStaysConsistentIff(s, es[0]);
      if !PersistenceDecides(s, es[0]) {
        ConsistentThroughoutIff(Step(s, es[0]), es[1..]);
      }
    }
  }

  /** An open that fails, wherever it fails, leaves the device as it was. */
  lemma FailedOpenChangesNothing(s: State, o: Oracle)
    requires Consistent(s) && !s.persistent
    ensures OpenDevice(s, o).1 != Success ==> OpenDevice(s, o).0 == s
    ensures OpenDevice(s, o).1 == Success <==>
      o.fileAllocs && o.minorFound && (s.flagOpen ||
        (o.deviceId && AllocStacks(NO_STACKS, o) == ALL_STACKS && o.irqGranted && (s.gvi || o.adapterStarts)))
  {
  }

  /** The file and the device are found, and the device has to be started. */
  predicate Found(s: State, o: Oracle) {
    o.fileAllocs && o.minorFound && !s.flagOpen
  }

  /** The stacks it is to run with are at hand: those of persistence mode are taken for granted. */
  predicate StacksAtHand(s: State, o: Oracle) {
    s.persistent || (o.isrStack && o.cfgchkStack && o.isrBhStack && o.timerStack)
  }

  predicate NeedsHandler(s: State) {
    s.gvi || !s.persistent
  }

  /** Which error an open returns, from what it meets: the first obstacle in its way decides. */
  lemma ErrorsByCause(s: State, o: Oracle)
    ensures var rc := OpenDevice(s, o).1;
      && (rc == Enodev <==> o.fileAllocs && !o.minorFound)
      && (rc == Enxio <==> Found(s, o) && !o.deviceId)
      && (rc == Enomem <==> !o.fileAllocs || (Found(s, o) && o.deviceId && !StacksAtHand(s, o)))
      && (rc == Ebusy <==> Found(s, o) && o.deviceId && StacksAtHand(s, o) && NeedsHandler(s) && !o.irqGranted)
      && (rc == Eio <==> Found(s, o) && o.deviceId && StacksAtHand(s, o) && !s.gvi && (s.persistent || o.irqGranted)
                         && !o.adapterStarts)
      && (rc == Success <==>
            o.fileAllocs && o.minorFound
            && (s.flagOpen || (o.deviceId && StacksAtHand(s, o)
                               && (NeedsHandler(s) ==> o.irqGranted) && (s.gvi || o.adapterStarts))))
  {
  }

  /** What a close releases: nothing while there are other handles; with the last one the open flag, in
      persistence mode no stacks, and of the handler one registration, except in persistence mode, where
      only a GVI device lets go of it. */
  lemma CloseReleases(s: State)
    requires s.handles > 0 && s.usage == s.handles
    ensures var t := CloseDevice(s);
      && t.handles == t.usage == s.handles - 1
      && (s.handles > 1 ==> t.irq == s.irq && t.stacks == s.stacks && t.flagOpen == s.flagOpen)
      && (s.handles == 1 ==>
            && !t.flagOpen
            && t.stacks == (if s.persistent then s.stacks else Stacks(false, false, false, false))
            && (s.persistent && !s.gvi ==> t.irq == s.irq)
            && (s.gvi || !s.persistent ==> t.irq == if s.irq == 0 then 0 else s.irq - 1))
  {
  }

  /** A GVI device asks for its handler at every first open and gives it back at every last close, in
      persistence mode or not: in every run, the mode switched on and off at will, it is registered once
      while the device is open and not at all otherwise. */
  lemma GviHandlerFollowsOpen(es: seq<Event>)
    ensures var s := Exec(Step, Init(true), es);
            s.irq == One(s.flagOpen) && s.usage == s.handles && (s.flagOpen <==> s.handles > 0)
  {
    GviFrom(Init(true), es);
  }

  lemma {:induction false} GviFrom(s: State, es: seq<Event>)
    requires s.gvi && s.irq == One(s.flagOpen) && s.usage == s.handles && (s.flagOpen <==> s.handles > 0)
    ensures var t := Exec(Step, s, es);
            t.irq == One(t.flagOpen) && t.usage == t.handles && (t.flagOpen <==> t.handles > 0)
    decreases |es|
  {
    if es != [] {
      GviFrom(Step(s, es[0]), es[1..]);
    }
  }

  predicate Opens(s: State, e: Event) {
    e.Open? && OpenDevice(s, e.o).1 == Success
  }

  predicate Closes(s: State, e: Event) {
    e.Close? && s.handles > 0
  }

  /** In every run, of any device and in any mode, the handles are the opens that succeeded less the closes,
      the usage count says how many there are, and the device is open exactly while there is one. */
  lemma HandlesAreCounted(gvi: bool, es: seq<Event>)
    ensures var s := Exec(Step, Init(gvi), es);
      && s.handles == Count(Step, Init(gvi), es, Opens) - Count(Step, Init(gvi), es, Closes)
      && s.usage == s.handles && (s.flagOpen <==> s.handles > 0)
  {
    HandlesFrom(Init(gvi), es);
  }

  lemma {:induction false} HandlesFrom(s: State, es: seq<Event>)
    requires s.usage == s.handles && (s.flagOpen <==> s.handles > 0)
    ensures var t := Exec(Step, s, es);
      && t.handles == s.handles + Count(Step, s, es, Opens) - Count(Step, s, es, Closes)
      && t.usage == t.handles && (t.flagOpen <==> t.handles > 0)
    decreases |es|
  {
    if es != [] {
      HandlesFrom(Step(s, es[0]), es[1..]);
    }
  }

  /** Opens and closes balance: as many closes as successful opens bring a closed device back. */
  lemma OpenThenClose(s: State, o: Oracle)
    requires Consistent(s) && !s.persistent && OpenDevice(s, o).1 == Success
    ensures CloseDevice(OpenDevice(s, o).0) == s
  {
    if s.flagOpen {
      AnotherHandle(s, o);
    } else {
      FirstHandle(s, o);
    }
  }

  lemma FirstHandle(s: State, o: Oracle)
    requires Consistent(s) && !s.persistent && !s.flagOpen && OpenDevice(s, o).1 == Success
    ensures OpenDevice(s, o).0 == s.(irq := 1, stacks := ALL_STACKS, flagOpen := true, usage := 1, handles := 1)
  {
    StartedOnce(s, o);
  }

  lemma StartedOnce(s: State, o: Oracle)
    requires !s.persistent && !s.flagOpen && s.stacks == NO_STACKS && s.irq == 0 && OpenDevice(s, o).1 == Success
    ensures OpenDevice(s, o).0 ==
      s.(irq := 1, stacks := ALL_STACKS, flagOpen := true, usage := s.usage + 1, handles := s.handles + 1)
  {
  }

  lemma AnotherHandle(s: State, o: Oracle)
    requires Consistent(s) && !s.persistent && s.flagOpen && OpenDevice(s, o).1 == Success
    ensures OpenDevice(s, o).0 == s.(usage := s.usage + 1, handles := s.handles + 1)
  {
  }

  // ------------------------------------------------------------------ in persistence mode

  /** A closed device whose stacks and handler persistence mode has kept. */
  predicate Kept(s: State) {
    && s.persistent && !s.gvi && !s.flagOpen && s.usage == s.handles == 0
    && s.irq == 1 && s.stacks == ALL_STACKS && s.orphans == 0
  }

  /** An open that fails past the lookup frees all stacks, also those it found. One that fails at the
      adapter frees a registration of the handler, which outside persistence mode is the one it has just
      made, and otherwise one it found. So, in any state and mode, a failed open changes nothing exactly if
      it ends at the lookup, or finds no stacks and does not take such a registration away. */
  lemma FailedOpenIsHarmlessIff(s: State, o: Oracle)
    requires OpenDevice(s, o).1 != Success
    ensures OpenDevice(s, o).0 == s <==>
      || !o.fileAllocs || !o.minorFound
      || (s.stacks == NO_STACKS && !(s.irq > 0 && o.deviceId && !s.gvi && s.persistent))
  {
  }

  /** Both ways of doing harm are reached: persistence mode keeps stacks and handler over a close, one
      failed open then takes the stacks, and another one the handler. */
  lemma TwoFailedOpensStrip(good: Oracle, noDevice: Oracle, noAdapter: Oracle)
    requires OpenDevice(Init(false), good).1 == Success
    requires noDevice.fileAllocs && noDevice.minorFound && !noDevice.deviceId
    requires noAdapter.fileAllocs && noAdapter.minorFound && noAdapter.deviceId && !noAdapter.adapterStarts
    ensures var kept := Exec(Step, Init(false), [Open(good), SetPersistent(true), Close]);
      var noStacks := Step(kept, Open(noDevice));
      var stripped := Step(noStacks, Open(noAdapter));
      && Kept(kept)
      && noStacks == kept.(stacks := NO_STACKS)
      && stripped == kept.(stacks := NO_STACKS, irq := 0)
  {
    KeptIsReachable(good);
  }

  /** Switching the mode off does not give back what it kept: the next open registers the handler a second
      time and overwrites the pointers of the four stacks, and its close leaves one registration behind. */
  lemma SwitchingOffLeaks(s: State, good: Oracle)
    requires Kept(s) && OpenDevice(Init(false), good).1 == Success
    ensures var off := Step(s, SetPersistent(false));
      var reopened := Step(off, Open(good));
      && reopened.flagOpen && reopened.irq == 2 && reopened.orphans == 4
      && Step(reopened, Close) == off.(stacks := NO_STACKS, orphans := 4)
  {
  }

  /** After a failed open in the mode, the next one succeeds on a device without stacks and without a
      handler. */
  lemma PersistenceCanLoseStacks(s: State, bad: Oracle, good: Oracle)
    requires Kept(s)
    requires bad.fileAllocs && bad.minorFound && bad.deviceId && !bad.adapterStarts
    requires good.fileAllocs && good.minorFound && good.deviceId && good.adapterStarts
    ensures var t := Exec(Step, s, [Open(bad), Open(good)]);
      t.flagOpen && t.usage == 1 && t.irq == 0 && t.stacks == NO_STACKS
  {
    var s1 := Step(s, Open(bad));
    var s2 := Step(s1, Open(good));
    assert [Open(bad), Open(good)][1..] == [Open(good)];
    assert [Open(good)][1..] == [];
    assert Exec(Step, s1, [Open(good)]) == Exec(Step, s2, []);
  }

  /** Persistence mode does reach such a device: open, switch it on, close. */
  lemma KeptIsReachable(o: Oracle)
    requires OpenDevice(Init(false), o).1 == Success
    ensures Kept(Exec(Step, Init(false), [Open(o), SetPersistent(true), Close]))
  {
    var s0 := Init(false);
    ExecSnoc(Step, s0, [], Open(o));
    ExecSnoc(Step, s0, [Open(o)], SetPersistent(true));
    ExecSnoc(Step, s0, [Open(o)] + [SetPersistent(true)], Close);
    assert [] + [Open(o)] == [Open(o)];
    assert [Open(o)] + [SetPersistent(true)] + [Close] == [Open(o), SetPersistent(true), Close];
    OpenedAndKept(o);
  }

  lemma OpenedAndKept(o: Oracle)
    requires OpenDevice(Init(false), o).1 == Success
    ensures Kept(Step(Step(Step(Init(false), Open(o)), SetPersistent(true)), Close))
  {
  }

  // ------------------------------------------------------------------ the object

  class Device {
    const gvi: bool
    var persistent: bool
    var flagOpen: bool
    var usage: int
    var irq: nat
    var isrSp: bool
    var cfgchkSp: bool
    var isrBhSp: bool
    var timerSp: bool
    ghost var orphans: nat
    ghost var handles: nat

    ghost function View(): State
      reads this
    {
      State(gvi, persistent, flagOpen, usage, irq, Stacks(isrSp, cfgchkSp, isrBhSp, timerSp), orphans, handles)
    }

    constructor (gvi: bool)
      ensures View() == Init(gvi)
    {
      this.gvi, persistent, flagOpen, usage, irq := gvi, false, false, 0, 0;
      isrSp, cfgchkSp, isrBhSp, timerSp, orphans, handles := false, false, false, false, 0, 0;
    }

    /** The four allocations, up to the first that fails. */
    method AllocateStacks(o: Oracle) returns (ok: bool)
      modifies `isrSp, `cfgchkSp, `isrBhSp, `timerSp, `orphans
      ensures Stacks(isrSp, cfgchkSp, isrBhSp, timerSp)
           == AllocStacks(old(Stacks(isrSp, cfgchkSp, isrBhSp, timerSp)), o)
      ensures orphans == old(orphans) + Overwritten(old(Stacks(isrSp, cfgchkSp, isrBhSp, timerSp)), o)
      ensures ok <==> Stacks(isrSp, cfgchkSp, isrBhSp, timerSp) == ALL_STACKS
    {
      orphans := orphans + One(isrSp);
      isrSp := o.isrStack;
      if !isrSp {
        return false;
      }
      orphans := orphans + One(cfgchkSp);
      cfgchkSp := o.cfgchkStack;
      if !cfgchkSp {
        return false;
      }
      orphans := orphans + One(isrBhSp);
      isrBhSp := o.isrBhStack;
      if !isrBhSp {
        return false;
      }
      orphans := orphans + One(timerSp);
      timerSp := o.timerStack;
      return timerSp;
    }

    /** The body of `if (!(nv->flags & NV_FLAG_OPEN))`. */
    method Start(o: Oracle) returns (rc: Rc)
      modifies this
      ensures (View(), rc) == FirstOpen(old(View()), o)
    {
      if !o.deviceId {
        return Enxio;
      }
      if !persistent {
        var ok := AllocateStacks(o);
        if !ok {
          return Enomem;
        }
      }
      if gvi {
        if !o.irqGranted {
          return Ebusy;
        }
        irq := irq + 1;
      } else {
        if !persistent {
          if !o.irqGranted {
            return Ebusy;
          }
          irq := irq + 1;
        }
        if !o.adapterStarts {
          irq := FreeIrq(irq);
          return Eio;
        }
      }
      flagOpen := true;
      return Success;
    }

    method OpenFile(o: Oracle) returns (rc: Rc)
      modifies this
      ensures (View(), rc) == OpenDevice(old(View()), o)
      ensures usage == if rc == Success then old(usage) + 1 else old(usage)
    {
      if !o.fileAllocs {
        return Enomem;
      }
      if !o.minorFound {
        return Enodev;
      }
      rc := Success;
      if !flagOpen {
        rc := Start(o);
      }
      if rc == Success {
        usage := usage + 1;
        handles := handles + 1;
      } else {
        timerSp, isrBhSp, cfgchkSp, isrSp := false, false, false, false;
      }
    }

    method CloseFile()
      requires handles > 0
      modifies this
      ensures View() == CloseDevice(old(View()))
    {
      usage := usage - 1;
      handles := handles - 1;
      if usage == 0 {
        if gvi || !persistent {
          irq := FreeIrq(irq);
        }
        if !persistent {
          timerSp, isrBhSp, cfgchkSp, isrSp := false, false, false, false;
        }
        flagOpen := false;
      }
    }
  }
}
