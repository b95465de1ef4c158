// All cameras of the recorder: frames are routed by camera id to recorders that are
// started on first use, and all of them write to one store and one set of counters.
module Sessions {
  import opened Wrappers
  import opened Sets
  import opened Names
  import opened SegmentStore
  import opened SharedStore
  import opened StoreCalls
  import opened RecorderSpec
  import opened RecorderRuns

  // The counters kept by camera id, as text, and the totals.
  datatype PerCamera = PerCamera(received: nat, recorded: nat, dropped: nat, done: nat)

  datatype Metrics = Metrics(cameras: map<string, PerCamera>, segmentsDone: int, encoderErrors: int, activeEncoders: int)

  // cancelled is the process-wide context. Of a camera only what it does not share is
  // kept; its files are in the disk and its counters in the metrics.
  datatype State = State(cancelled: bool, cameras: map<nat, Sys>, disk: Disk, metrics: Metrics)

  datatype SessionEvent =
    | SubmitTo(id: nat, f: Frame)
    | Within(id: nat, e: Event)
    | CancelAll

  const NOTHING: State := State(false, map[], map[], Metrics(map[], 0, 0, 0))

  // ---- What is shared and what is not.

  // What a camera does not share. Of the shared totals it is its own contribution.
  function Private(s: Sys): Sys {
    var m := s.loop.m;
    s.(loop := s.loop.(files := EMPTY, m := Counters(0, 0, 0, 0, m.encoderErrors, m.activeEncoders)))
  }

  function Whole(p: Sys, f: Files, c: PerCamera): Sys {
    var m := p.loop.m;
    p.(loop := p.loop.(files := f,
                       m := Counters(c.received, c.recorded, c.dropped, c.done, m.encoderErrors, m.activeEncoders)))
  }

  // The recorder of a camera, started if there is none yet.
  function PrivateOf(s: State, id: nat): Sys {
    if id in s.cameras then s.cameras[id] else Private(START.(cancelled := s.cancelled))
  }

  // The files the store shows a camera.
  ghost function FilesOf(stamp: Stamper, d: Disk, id: nat): Files {
    if exists f :: Shows(stamp, d, id, f) then
      var f :| Shows(stamp, d, id, f);
      f
    else EMPTY
  }

  function CountsOf(m: Metrics, id: nat): PerCamera {
    if Decimal(id) in m.cameras then m.cameras[Decimal(id)] else PerCamera(0, 0, 0, 0)
  }

  ghost function CameraOf(stamp: Stamper, s: State, id: nat): Sys {
    Whole(PrivateOf(s, id), FilesOf(stamp, s.disk, id), CountsOf(s.metrics, id))
  }

  // One increment for each unit by which a counter of the camera has grown.
  function Grown(c: nat, before: nat, after: nat): nat {
    if after >= before then c + (after - before) else c
  }

  function Counted(m: Metrics, id: nat, before: Counters, after: Counters): Metrics {
    var c := CountsOf(m, id);
    Metrics(m.cameras[Decimal(id) := PerCamera(Grown(c.received, before.received, after.received),
                                               Grown(c.recorded, before.recorded, after.recorded),
                                               Grown(c.dropped, before.dropped, after.dropped),
                                               Grown(c.done, before.segmentsDone, after.segmentsDone))],
            m.segmentsDone + after.segmentsDone - before.segmentsDone,
            m.encoderErrors + after.encoderErrors - before.encoderErrors,
            m.activeEncoders + after.activeEncoders - before.activeEncoders)
  }

  // An event of one camera: its own state moves on, its calls are made on the shared
  // disk under the names it gives its files, and its increments on the shared counters.
  ghost function StepCamera(cfg: Config, stamp: Stamper, s: State, id: nat, e: Event): State
    requires cfg.Valid()
  {
    var before := CameraOf(stamp, s, id);
    var after := Step(cfg, before, e);
    s.(cameras := s.cameras[id := Private(after)],
       disk := OnAll(stamp, s.disk, id, CallsOf(cfg, before, e)),
       metrics := Counted(s.metrics, id, before.loop.m, after.loop.m))
  }

  function CancelCameras(cameras: map<nat, Sys>): map<nat, Sys> {
    map id | id in cameras :: cameras[id].(cancelled := true)
  }

  ghost function StepAny(cfg: Config, stamp: Stamper, s: State, e: SessionEvent): State
    requires cfg.Valid()
  {
    match e
    case SubmitTo(id, f) => StepCamera(cfg, stamp, s, id, Submit(f))
    case Within(id, e) => if id in s.cameras && !e.Submit? then StepCamera(cfg, stamp, s, id, e) else s
    case CancelAll => s.(cancelled := true, cameras := CancelCameras(s.cameras))
  }

  ghost function RunAll(cfg: Config, stamp: Stamper, events: seq<SessionEvent>): State
    requires cfg.Valid()
  {
    if events == [] then NOTHING
    else StepAny(cfg, stamp, RunAll(cfg, stamp, events[..|events| - 1]), events[|events| - 1])
  }

  // What one camera gets to see of one event: nothing or one event of its own. Events of
  // a camera nobody has submitted to yet do not exist.
  function EventFor(s: State, e: SessionEvent, id: nat): seq<Event> {
    match e
    case SubmitTo(i, f) => if i == id then [Submit(f)] else []
    case Within(i, e) => if i == id && id in s.cameras && !e.Submit? then [e] else []
    case CancelAll => [Cancel]
  }

  ghost function EventsFor(cfg: Config, stamp: Stamper, events: seq<SessionEvent>, id: nat): seq<Event>
    requires cfg.Valid()
  {
    if events == [] then []
    else
      var before := events[..|events| - 1];
      EventsFor(cfg, stamp, before, id) + EventFor(RunAll(cfg, stamp, before), events[|events| - 1], id)
  }

  // ---- Cameras do not interfere.

  // s holds camera c under the given id.
  ghost predicate Holds(stamp: Stamper, s: State, id: nat, c: Sys) {
    && PrivateOf(s, id) == Private(c)
    && Shows(stamp, s.disk, id, c.loop.files)
    && CountsOf(s.metrics, id) == PerCamera(c.loop.m.received, c.loop.m.recorded, c.loop.m.dropped, c.loop.m.segmentsDone)
  }

  lemma HoldsIsCamera(stamp: Stamper, s: State, id: nat, c: Sys)
    requires IsStamper(stamp) && Holds(stamp, s, id, c)
    ensures CameraOf(stamp, s, id) == c
  {
    hide Shows;
    ShowsOnlyOne(stamp, s.disk, id, FilesOf(stamp, s.disk, id), c.loop.files);
  }

  lemma OwnEvent(cfg: Config, stamp: Stamper, s: State, id: nat, c: Sys, e: Event)
    requires cfg.Valid() && IsStamper(stamp) && Inv(cfg, c) && Holds(stamp, s, id, c)
    ensures Holds(stamp, StepCamera(cfg, stamp, s, id, e), id, Step(cfg, c, e))
  {
    hide Shows, Step, CallsOf, OnAll, Inv;
    HoldsIsCamera(stamp, s, id, c);
    StepGrows(cfg, c, e);
    OwnCalls(stamp, s.disk, id, c.loop.files, CallsOf(cfg, c, e));
    CallsExplainStep(cfg, c, e);
  }

  lemma OtherEvent(cfg: Config, stamp: Stamper, s: State, other: nat, e: Event, id: nat, c: Sys)
    requires cfg.Valid() && IsStamper(stamp) && other != id && Holds(stamp, s, id, c)
    ensures Holds(stamp, StepCamera(cfg, stamp, s, other, e), id, c)
  {
    hide Shows, Step, CallsOf, OnAll, CameraOf;
    OtherCalls(stamp, s.disk, other, CallsOf(cfg, CameraOf(stamp, s, other), e), id, c.loop.files);
    if Decimal(other) == Decimal(id) {
      DecimalIsInjective(other, id);
    }
  }

  // The camera after its share of an event.
  function Shared(cfg: Config, c: Sys, mine: seq<Event>): Sys
    requires cfg.Valid() && |mine| <= 1
  {
    if mine == [] then c else Step(cfg, c, mine[0])
  }

  lemma EventIsLocal(cfg: Config, stamp: Stamper, s: State, e: SessionEvent, id: nat, c: Sys)
    requires cfg.Valid() && IsStamper(stamp) && Inv(cfg, c) && Holds(stamp, s, id, c)
    ensures Holds(stamp, StepAny(cfg, stamp, s, e), id, Shared(cfg, c, EventFor(s, e, id)))
  {
    hide Shows, StepCamera, Inv;
    match e {
      case SubmitTo(i, f) =>
        if i == id {
          OwnEvent(cfg, stamp, s, id, c, Submit(f));
        } else {
          OtherEvent(cfg, stamp, s, i, Submit(f), id, c);
        }
      case Within(i, e) =>
        if i in s.cameras && !e.Submit? {
          if i == id {
            OwnEvent(cfg, stamp, s, id, c, e);
          } else {
            OtherEvent(cfg, stamp, s, i, e, id, c);
          }
        }
      case CancelAll =>
    }
  }

  lemma RunShared(cfg: Config, events: seq<Event>, mine: seq<Event>)
    requires cfg.Valid() && |mine| <= 1
    ensures RunOf(cfg, events + mine) == Shared(cfg, RunOf(cfg, events), mine)
  {
    if mine == [] {
      assert events + mine == events;
    } else {
      assert mine == [mine[0]];
      RunOneMore(cfg, events, mine[0]);
    }
  }

  lemma HeldOneMore(cfg: Config, stamp: Stamper, s: State, e: SessionEvent, id: nat, own: seq<Event>)
    requires cfg.Valid() && IsStamper(stamp) && Holds(stamp, s, id, RunOf(cfg, own))
    ensures Holds(stamp, StepAny(cfg, stamp, s, e), id, RunOf(cfg, own + EventFor(s, e, id)))
  {
    hide Holds, StepAny, Inv, RunOf, Shared;
    RunKeepsInv(cfg, own);
    EventIsLocal(cfg, stamp, s, e, id, RunOf(cfg, own));
    RunShared(cfg, own, EventFor(s, e, id));
  }

  lemma {:induction false} CamerasAreHeld(cfg: Config, stamp: Stamper, events: seq<SessionEvent>, id: nat)
    requires cfg.Valid() && IsStamper(stamp)
    ensures Holds(stamp, RunAll(cfg, stamp, events), id, RunOf(cfg, EventsFor(cfg, stamp, events, id)))
  {
    if events == [] {
      NothingHolds(stamp, id);
    } else {
      hide Holds, StepAny, EventFor, RunOf;
      var before, e := events[..|events| - 1], events[|events| - 1];
      CamerasAreHeld(cfg, stamp, before, id);
      HeldOneMore(cfg, stamp, RunAll(cfg, stamp, before), e, id, EventsFor(cfg, stamp, before, id));
    }
  }

  lemma NothingHolds(stamp: Stamper, id: nat)
    ensures Holds(stamp, NOTHING, id, START)
  {
  }

  // Although all cameras create, rename and remove files in one tree and count in one
  // place, each finds there what a recorder that saw only its own events would have: the
  // same files, the same counters, the same state. So everything proved of one camera
  // holds of each.
  lemma CamerasAreIndependent(cfg: Config, stamp: Stamper, events: seq<SessionEvent>, id: nat)
    requires cfg.Valid() && IsStamper(stamp)
    ensures var alone := RunOf(cfg, EventsFor(cfg, stamp, events, id));
            && CameraOf(stamp, RunAll(cfg, stamp, events), id) == alone
            && Shows(stamp, RunAll(cfg, stamp, events).disk, id, alone.loop.files)
  {
    hide Shows;
    CamerasAreHeld(cfg, stamp, events, id);
    HoldsIsCamera(stamp, RunAll(cfg, stamp, events), id, RunOf(cfg, EventsFor(cfg, stamp, events, id)));
  }

  // A recorder is running exactly for the cameras a frame has come from.
  lemma {:induction false} CamerasAreThoseSeen(cfg: Config, stamp: Stamper, events: seq<SessionEvent>, id: nat)
    requires cfg.Valid()
    ensures id in RunAll(cfg, stamp, events).cameras <==>
            exists i :: 0 <= i < |events| && events[i].SubmitTo? && events[i].id == id
  {
    if events != [] {
      CamerasAreThoseSeen(cfg, stamp, events[..|events| - 1], id);
    }
  }

  // ---- The totals.

  function Recording(cameras: map<nat, Sys>): set<nat> {
    set id | id in cameras && cameras[id].loop.seg.Some?
  }

  lemma GaugeOfCamera(cfg: Config, stamp: Stamper, events: seq<SessionEvent>, id: nat)
    requires cfg.Valid() && IsStamper(stamp)
    ensures var s := RunAll(cfg, stamp, events);
            CameraOf(stamp, s, id).loop.m.activeEncoders == if PrivateOf(s, id).loop.seg.Some? then 1 else 0
  {
    CamerasAreIndependent(cfg, stamp, events, id);
    RunKeepsInv(cfg, EventsFor(cfg, stamp, events, id));
  }

  // One camera changes its state; the others keep theirs.
  lemma RecordingAfterUpdate(cameras: map<nat, Sys>, id: nat, c: Sys)
    ensures |Recording(cameras[id := c])| ==
            |Recording(cameras)| - (if id in Recording(cameras) then 1 else 0) + (if c.loop.seg.Some? then 1 else 0)
  {
    var others := Recording(cameras) - {id};
    if c.loop.seg.Some? {
      assert Recording(cameras[id := c]) == others + {id};
    } else {
      assert Recording(cameras[id := c]) == others;
    }
    if id in Recording(cameras) {
      assert Recording(cameras) == others + {id};
    } else {
      assert Recording(cameras) == others;
    }
  }

  // The active-encoders gauge is the number of cameras with an open segment.
  lemma {:induction false} GaugeCountsOpenSegments(cfg: Config, stamp: Stamper, events: seq<SessionEvent>)
    requires cfg.Valid() && IsStamper(stamp)
    ensures var s := RunAll(cfg, stamp, events);
            s.metrics.activeEncoders == |Recording(s.cameras)|
  {
    if events == [] {
      assert Recording(NOTHING.cameras) == {};
    } else {
      hide Step, CallsOf, OnAll, FilesOf;
      var n := |events| - 1;
      var before, e := events[..n], events[n];
      var s, t := RunAll(cfg, stamp, before), RunAll(cfg, stamp, events);
      GaugeCountsOpenSegments(cfg, stamp, before);
      if e.CancelAll? {
        assert Recording(t.cameras) == Recording(s.cameras);
      } else if e.SubmitTo? || (e.id in s.cameras && !e.e.Submit?) {
        GaugeOfCamera(cfg, stamp, before, e.id);
        GaugeOfCamera(cfg, stamp, events, e.id);
        RecordingAfterUpdate(s.cameras, e.id, t.cameras[e.id]);
      }
    }
  }

  function Errors(cameras: map<nat, Sys>): map<nat, int> {
    map id | id in cameras :: cameras[id].loop.m.encoderErrors
  }

  function Done(cameras: map<string, PerCamera>): map<string, int> {
    map id | id in cameras :: cameras[id].done
  }

  // The other two totals are the sums over the cameras.
  ghost predicate AddUp(s: State) {
    && s.metrics.encoderErrors == Sum(Errors(s.cameras))
    && s.metrics.segmentsDone == Sum(Done(s.metrics.cameras))
  }

  lemma StepAddsUp(cfg: Config, stamp: Stamper, s: State, id: nat, e: Event)
    requires cfg.Valid() && AddUp(s) && Inv(cfg, CameraOf(stamp, s, id))
    ensures AddUp(StepCamera(cfg, stamp, s, id, e))
  {
    hide Step, CallsOf, OnAll, FilesOf, Inv, Sum;
    var t := StepCamera(cfg, stamp, s, id, e);
    StepGrows(cfg, CameraOf(stamp, s, id), e);
    SumAfterUpdate(Errors(s.cameras), id, t.cameras[id].loop.m.encoderErrors);
    assert Errors(t.cameras) == Errors(s.cameras)[id := t.cameras[id].loop.m.encoderErrors];
    var name := Decimal(id);
    SumAfterUpdate(Done(s.metrics.cameras), name, t.metrics.cameras[name].done);
    assert Done(t.metrics.cameras) == Done(s.metrics.cameras)[name := t.metrics.cameras[name].done];
  }

  lemma {:induction false} TotalsAddUp(cfg: Config, stamp: Stamper, events: seq<SessionEvent>)
    requires cfg.Valid() && IsStamper(stamp)
    ensures AddUp(RunAll(cfg, stamp, events))
  {
    if events == [] {
      assert Errors(NOTHING.cameras) == map[] && Done(NOTHING.metrics.cameras) == map[];
    } else {
      hide StepCamera, Sum, Inv;
      var before, e := events[..|events| - 1], events[|events| - 1];
      var s := RunAll(cfg, stamp, before);
      TotalsAddUp(cfg, stamp, before);
      if e.CancelAll? {
        assert Errors(CancelCameras(s.cameras)) == Errors(s.cameras);
      } else if e.SubmitTo? || (e.id in s.cameras && !e.e.Submit?) {
        CamerasAreIndependent(cfg, stamp, before, e.id);
        RunKeepsInv(cfg, EventsFor(cfg, stamp, before, e.id));
        StepAddsUp(cfg, stamp, s, e.id, if e.SubmitTo? then Submit(e.f) else e.e);
      }
    }
  }
}
