// The merged canvas of the streamer: a cache over the latest frame of every camera that
// is recomposed only when a version counter has moved, while another goroutine keeps
// changing the frames.
module CanvasCache {
  import opened Wrappers
  import Sets
  import opened GoInts
  import opened Bytes

  type Frames = map<nat, seq<byte>>

  // compose.Canvas as far as this code can tell: a function of the frames that may yield
  // nothing, and yields nothing for no frames.
  type Composer = Frames -> Option<seq<byte>>

  ghost predicate IsComposer(compose: Composer) {
    compose(map[]) == None
  }

  // What the IPC goroutine does to the frame map.
  datatype Change = StoreFrame(id: nat, jpeg: seq<byte>) | DropFrame(id: nat) | DropAllFrames

  function Changed(frames: Frames, c: Change): Frames {
    match c
    case StoreFrame(id, jpeg) => frames[id := jpeg]
    case DropFrame(id) => frames - {id}
    case DropAllFrames => map[]
  }

  // ---- The two goroutines, step by step.

  // A poll reads the version, then takes a snapshot, then composes. The number of bumps
  // at the time of the read is history; the program has it modulo 2^64.
  datatype Poll = Resting | VersionRead(at: nat) | HasSnapshot(at: nat, frames: Frames)

  // updated: the writer is between its change of the map and its bump.
  datatype State = State(
    frames: Frames, bumps: nat, updated: bool,
    poll: Poll, current: Option<seq<byte>>, lastBumps: nat)
  {
    function Version(): nat {
      bumps % TWO_64
    }

    function LastVersion(): nat {
      lastBumps % TWO_64
    }
  }

  datatype Action = Update(c: Change) | Bump | ReadVersion | TakeSnapshot | Compose

  const START: State := State(map[], 0, false, Resting, None, 0)

  function Do(compose: Composer, s: State, a: Action): State {
    match a
    case Update(c) => if s.updated then s else s.(frames := Changed(s.frames, c), updated := true)
    case Bump => if s.updated then s.(bumps := s.bumps + 1, updated := false) else s
    case ReadVersion =>
      if s.poll.Resting? && s.Version() != s.LastVersion() then s.(poll := VersionRead(s.bumps)) else s
    case TakeSnapshot =>
      if s.poll.VersionRead? then s.(poll := HasSnapshot(s.poll.at, s.frames)) else s
    case Compose =>
      if s.poll.HasSnapshot? then
        var encoded := compose(s.poll.frames);
        if encoded.Some? then s.(poll := Resting, current := encoded, lastBumps := s.poll.at)
        else s.(poll := Resting)
      else s
  }

  function Run(compose: Composer, s: State, actions: seq<Action>): State {
    if actions == [] then s
    else Do(compose, Run(compose, s, actions[..|actions| - 1]), actions[|actions| - 1])
  }

  lemma RunOneMore(compose: Composer, s: State, actions: seq<Action>, a: Action)
    ensures Run(compose, s, actions + [a]) == Do(compose, Run(compose, s, actions), a)
  {
    assert (actions + [a])[..|actions|] == actions;
  }

  // ---- Which frames are there.

  // What the last change that concerned camera k was.
  function LastChange(compose: Composer, actions: seq<Action>, k: nat): Option<Change> {
    if actions == [] then None
    else
      var a, before := actions[|actions| - 1], actions[..|actions| - 1];
      if a.Update? && !Run(compose, START, before).updated && Concerns(a.c, k) then Some(a.c)
      else LastChange(compose, before, k)
  }

  predicate Concerns(c: Change, k: nat) {
    match c
    case StoreFrame(id, _) => id == k
    case DropFrame(id) => id == k
    case DropAllFrames => true
  }

  // A camera has a frame exactly when the last thing that happened to it was that a frame
  // was stored, and then it is that frame. Going offline takes away the camera's own frame
  // and no other, and the lost connection takes away all.
  lemma {:induction false} FrameIsLastStored(compose: Composer, actions: seq<Action>, k: nat)
    ensures var frames, last := Run(compose, START, actions).frames, LastChange(compose, actions, k);
            && (k in frames <==> last.Some? && last.value.StoreFrame?)
            && (k in frames ==> frames[k] == last.value.jpeg)
  {
    if actions != [] {
      FrameIsLastStored(compose, actions[..|actions| - 1], k);
    }
  }

  ghost predicate Inv(compose: Composer, s: State) {
    && s.lastBumps <= s.bumps
    && (s.lastBumps == s.bumps && !s.updated ==> s.current == compose(s.frames))
    && (s.poll.VersionRead? ==> s.poll.at <= s.bumps)
    && (s.poll.HasSnapshot? ==>
          s.poll.at <= s.bumps && (s.poll.at == s.bumps && !s.updated ==> s.poll.frames == s.frames))
  }

  lemma {:induction false} RunKeepsInv(compose: Composer, actions: seq<Action>)
    requires IsComposer(compose)
    ensures Inv(compose, Run(compose, START, actions))
  {
    if actions != [] {
      RunKeepsInv(compose, actions[..|actions| - 1]);
    }
  }

  // Whenever the versions agree and no change is waiting for its bump, the cached canvas
  // is the canvas of the current frames. The one way to be wrong is a counter that has
  // gone all the way round since the cached version was read.
  lemma CacheIsCoherent(compose: Composer, actions: seq<Action>)
    requires IsComposer(compose)
    ensures var s := Run(compose, START, actions);
            s.Version() == s.LastVersion() && !s.updated && s.bumps - s.lastBumps < TWO_64 ==>
              s.current == compose(s.frames)
  {
    RunKeepsInv(compose, actions);
    var s := Run(compose, START, actions);
    if s.Version() == s.LastVersion() && s.bumps - s.lastBumps < TWO_64 {
      assert (s.bumps - s.lastBumps) % TWO_64 == 0;
    }
  }

  // A compose that yields nothing leaves the cache as it was, so while the version stays
  // different the next poll composes again.
  lemma NothingComposedRetries(compose: Composer, s: State)
    requires s.poll.HasSnapshot? && compose(s.poll.frames) == None
    ensures var t := Do(compose, s, Compose);
            && t.current == s.current && t.LastVersion() == s.LastVersion()
            && (s.Version() != s.LastVersion() ==> Do(compose, t, ReadVersion).poll.VersionRead?)
  {
  }

  // A poll that nobody interferes with catches up, if there is anything to show.
  lemma PollCatchesUp(compose: Composer, s: State)
    requires s.poll.Resting? && !s.updated && s.Version() != s.LastVersion() && compose(s.frames).Some?
    ensures var t := Run(compose, s, [ReadVersion, TakeSnapshot, Compose]);
            t.Version() == t.LastVersion() && t.current == compose(t.frames) && t.frames == s.frames
  {
    var a := [ReadVersion, TakeSnapshot, Compose];
    assert a[..2] == [ReadVersion, TakeSnapshot] && a[..2][..1] == [ReadVersion] && a[..2][..1][..0] == [];
    var t1 := Do(compose, s, ReadVersion);
    assert Run(compose, s, a[..2][..1]) == t1;
    assert Run(compose, s, a[..2]) == Do(compose, t1, TakeSnapshot);
  }

  // n times the same frame stored.
  function Storing(id: nat, jpeg: seq<byte>, n: nat): seq<Action> {
    if n == 0 then [] else Storing(id, jpeg, n - 1) + [Update(StoreFrame(id, jpeg))] + [Bump]
  }

  lemma {:induction false} StoringBumps(compose: Composer, s: State, id: nat, jpeg: seq<byte>, n: nat)
    requires !s.updated
    ensures Run(compose, s, Storing(id, jpeg, n)) ==
            s.(bumps := s.bumps + n, frames := if n == 0 then s.frames else s.frames[id := jpeg])
  {
    if n == 0 {
      assert Run(compose, s, []) == s;
    } else {
      hide Run;
      StoringBumps(compose, s, id, jpeg, n - 1);
      var before := Storing(id, jpeg, n - 1);
      RunOneMore(compose, s, before, Update(StoreFrame(id, jpeg)));
      RunOneMore(compose, s, before + [Update(StoreFrame(id, jpeg))], Bump);
      assert s.frames[id := jpeg][id := jpeg] == s.frames[id := jpeg];
    }
  }

  // After 2^64 bumps between two polls a stale cache passes for current.
  lemma CounterGoesRound(compose: Composer, s: State, id: nat, jpeg: seq<byte>)
    requires s.poll.Resting? && !s.updated && s.lastBumps == s.bumps && s.current == compose(s.frames)
    requires compose(s.frames[id := jpeg]) != compose(s.frames)
    ensures var t := Run(compose, s, Storing(id, jpeg, TWO_64));
            t.Version() == t.LastVersion() && !t.updated && t.current != compose(t.frames)
  {
    StoringBumps(compose, s, id, jpeg, TWO_64);
    assert (s.bumps + TWO_64) % TWO_64 == s.bumps % TWO_64;
  }

  // The bound of CacheIsCoherent is exact: a run from the start, for every frame that can
  // be shown at all.
  lemma CounterCanGoRound(compose: Composer, id: nat, jpeg: seq<byte>)
    requires IsComposer(compose) && compose(map[id := jpeg]).Some?
    ensures var t := Run(compose, START, Storing(id, jpeg, TWO_64));
            && t.Version() == t.LastVersion() && !t.updated && t.current != compose(t.frames)
            && t.bumps - t.lastBumps == TWO_64
  {
    CounterGoesRound(compose, START, id, jpeg);
    StoringBumps(compose, START, id, jpeg, TWO_64);
  }

  // ---- The two objects.

  // The changes, each followed by its bump.
  function Changes(changes: seq<Change>): seq<Action> {
    if changes == [] then []
    else Changes(changes[..|changes| - 1]) + [Update(changes[|changes| - 1])] + [Bump]
  }

  lemma RunOneChange(compose: Composer, s: State, changes: seq<Change>, i: nat)
    requires i < |changes|
    ensures Run(compose, s, [ReadVersion] + Changes(changes[..i + 1]))
            == Do(compose, Do(compose, Run(compose, s, [ReadVersion] + Changes(changes[..i])), Update(changes[i])), Bump)
  {
    hide Run, Do;
    var before := [ReadVersion] + Changes(changes[..i]);
    RunOneMore(compose, s, before, Update(changes[i]));
    RunOneMore(compose, s, before + [Update(changes[i])], Bump);
    assert changes[..i + 1][..i] == changes[..i];
    assert [ReadVersion] + Changes(changes[..i + 1]) == before + [Update(changes[i])] + [Bump];
  }

  // A poll during which the given changes are made between the reading of the version and
  // the snapshot, if it takes one.
  function PollActions(moved: bool, between: seq<Change>): seq<Action> {
    if moved then [ReadVersion] + Changes(between) + [TakeSnapshot] + [Compose] else [ReadVersion]
  }

  class Reader {
    var frames: Frames
    var version: int
    // How often the counter was bumped in all.
    ghost var bumps: nat

    ghost predicate Valid()
      reads this
    {
      version == bumps % TWO_64
    }

    constructor ()
      ensures Valid() && frames == map[] && version == 0 && bumps == 0
    {
      frames, version, bumps := map[], 0, 0;
    }

    // storeFrame, dropFrame and dropAllFrames: the map under the lock, then the counter.
    method Apply(c: Change)
      requires Valid()
      modifies this
      ensures Valid() && frames == Changed(old(frames), c) && bumps == old(bumps) + 1
    {
      match c {
        case StoreFrame(id, jpeg) => frames := frames[id := jpeg];
        case DropFrame(id) => frames := frames - {id};
        case DropAllFrames => frames := map[];
      }
      version := (version + 1) % TWO_64;
      bumps := bumps + 1;
    }

    method AllLatest() returns (copy: Frames)
      ensures copy == frames
    {
      copy := map[];
      var todo := frames.Keys;
      while todo != {}
        invariant todo <= frames.Keys
        invariant copy == map id | id in frames && id !in todo :: frames[id]
        decreases |todo|
      {
        ghost var _ := SomeId(todo);
        var id :| id in todo;
        copy := copy[id := frames[id]];
        todo := todo - {id};
      }
    }
  }

  lemma SomeId(ids: set<nat>) returns (id: nat)
    requires ids != {}
    ensures id in ids
  {
    id := Sets.SomeElement(ids);
  }

  class CanvasSource {
    var current: Option<seq<byte>>
    var lastVersion: int
    ghost var lastBumps: nat

    ghost predicate Valid()
      reads this
    {
      lastVersion == lastBumps % TWO_64
    }

    // Between two polls, with its reader at rest, it is this state of the two goroutines.
    ghost function Whole(r: Reader): State
      reads this, r
    {
      State(r.frames, r.bumps, false, Resting, current, lastBumps)
    }

    constructor ()
      ensures Valid() && current == None && lastVersion == 0 && lastBumps == 0
    {
      current, lastVersion, lastBumps := None, 0, 0;
    }

    // The function handed to pump. The given changes are made by the IPC goroutine after
    // the version was read and before the snapshot.
    method Next(r: Reader, compose: Composer, between: seq<Change>) returns (canvas: Option<seq<byte>>)
      requires Valid() && r.Valid()
      modifies this, r
      ensures Valid() && r.Valid() && canvas == current
      ensures Whole(r) == Run(compose, old(Whole(r)), PollActions(old(r.version != lastVersion), between))
    {
      ghost var s := Whole(r);
      RunOneMore(compose, s, [], ReadVersion);
      assert [] + [ReadVersion] == [ReadVersion] && Run(compose, s, []) == s;
      assert Changes([]) == [];
      hide Run, Changes;
      var v := r.version;
      if v != lastVersion {
        ghost var at := r.bumps;
        var i := 0;
        assert between[..0] == [] && [ReadVersion] + [] == [ReadVersion];
        while i < |between|
          invariant 0 <= i <= |between| && r.Valid() && Valid() && current == s.current && lastBumps == s.lastBumps
          invariant Run(compose, s, [ReadVersion] + Changes(between[..i]))
                    == s.(frames := r.frames, bumps := r.bumps, poll := VersionRead(at))
        {
          RunOneChange(compose, s, between, i);
          r.Apply(between[i]);
          i := i + 1;
        }
        assert between[..|between|] == between;
        ghost var read := [ReadVersion] + Changes(between);
        RunOneMore(compose, s, read, TakeSnapshot);
        RunOneMore(compose, s, read + [TakeSnapshot], Compose);
        var frames := r.AllLatest();
        var encoded := compose(frames);
        if encoded.Some? {
          current := encoded;
          lastVersion, lastBumps := v, at;
        }
      }
      return current;
    }
  }
}
