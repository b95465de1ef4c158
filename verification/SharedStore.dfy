// The one directory tree all cameras record into: a shared .tmp directory and one
// directory per camera. What a camera sees of it are its own Files.
module SharedStore {
  import opened Wrappers
  import opened Names
  import opened SegmentStore

  // ---- Paths.

  // A file, by its directory and its name in it.
  datatype Path = Path(dir: string, name: string)

  // What a path is for.
  datatype Slot =
    | Tmp(camera: nat, start: int)
    | Video(camera: nat, start: int)
    | Metadata(camera: nat, start: int)
    | Latest(camera: nat)

  // The start time to the second, as text; what is left open is everything but its
  // length.
  type Stamper = int -> string

  ghost predicate IsStamper(stamp: Stamper) {
    forall t :: |stamp(t)| == 16
  }

  function CameraDir(camera: nat): string {
    "camera-" + SafeName(Decimal(camera))
  }

  function PathOf(stamp: Stamper, s: Slot): Path {
    match s
    case Tmp(c, t) => Path(".tmp", TempName(c, stamp(t), t))
    case Video(c, t) => Path(CameraDir(c), FileName(stamp(t), t))
    case Metadata(c, t) => Path(CameraDir(c), FileName(stamp(t), t) + ".json")
    case Latest(c) => Path(CameraDir(c), "latest.mp4")
  }

  lemma CameraDirIsInjective(a: nat, b: nat)
    ensures CameraDir(a) != ".tmp"
    ensures CameraDir(a) == CameraDir(b) ==> a == b
  {
    assert CameraDir(a)[0] == 'c';
    if CameraDir(a) == CameraDir(b) {
      assert CameraDir(a)[7..] == SafeName(Decimal(a)) && CameraDir(b)[7..] == SafeName(Decimal(b));
      DigitsAreSafe(Decimal(a));
      DigitsAreSafe(Decimal(b));
      DecimalIsInjective(a, b);
    }
  }

  // The last character tells a recording from its metadata.
  lemma NameEndings(stamp: string, t: int)
    ensures var n := FileName(stamp, t); |n| > 0 && n[|n| - 1] == '4'
    ensures var n := FileName(stamp, t) + ".json"; |n| > 0 && n[|n| - 1] == 'n'
  {
  }

  lemma NamesDiffer(stamp: Stamper, a: Slot, b: Slot)
    requires IsStamper(stamp) && !a.Tmp? && !b.Tmp? && a.camera == b.camera
    ensures PathOf(stamp, a).name == PathOf(stamp, b).name ==> a == b
  {
    if !a.Latest? {
      NameEndings(stamp(a.start), a.start);
      FileNameIsInjective(stamp(a.start), a.start, stamp(a.start), a.start);
    }
    if !b.Latest? {
      NameEndings(stamp(b.start), b.start);
      FileNameIsInjective(stamp(b.start), b.start, stamp(b.start), b.start);
    }
    if !a.Latest? && !b.Latest? {
      FileNameIsInjective(stamp(a.start), a.start, stamp(b.start), b.start);
      if a.Metadata? && b.Metadata? && PathOf(stamp, a).name == PathOf(stamp, b).name {
        SameTail(FileName(stamp(a.start), a.start), FileName(stamp(b.start), b.start), ".json");
      }
    }
  }

  // No two slots share a path, whatever the cameras and the start times.
  lemma PathOfIsInjective(stamp: Stamper, a: Slot, b: Slot)
    requires IsStamper(stamp)
    ensures PathOf(stamp, a) == PathOf(stamp, b) ==> a == b
  {
    if PathOf(stamp, a) == PathOf(stamp, b) {
      CameraDirIsInjective(a.camera, b.camera);
      CameraDirIsInjective(b.camera, a.camera);
      if a.Tmp? || b.Tmp? {
        TempNameIsInjective(a.camera, stamp(a.start), a.start, b.camera, stamp(b.start), b.start);
      } else {
        NamesDiffer(stamp, a, b);
      }
    }
  }

  // ---- The tree.

  // Garbage is what a failed write leaves: a file nobody can read as metadata.
  datatype Content = Bytes | Info(end: int) | Garbage | Link(target: string)

  type Disk = map<Path, Content>

  function At(stamp: Stamper, d: Disk, s: Slot): Option<Content> {
    if PathOf(stamp, s) in d then Some(d[PathOf(stamp, s)]) else None
  }

  function Put(stamp: Stamper, d: Disk, s: Slot, c: Content): Disk {
    d[PathOf(stamp, s) := c]
  }

  function Remove(stamp: Stamper, d: Disk, s: Slot): Disk {
    d - {PathOf(stamp, s)}
  }

  lemma AtAfterPut(stamp: Stamper, d: Disk, s: Slot, c: Content, other: Slot)
    requires IsStamper(stamp)
    ensures At(stamp, Put(stamp, d, s, c), other) == if other == s then Some(c) else At(stamp, d, other)
  {
    PathOfIsInjective(stamp, s, other);
  }

  lemma AtAfterRemove(stamp: Stamper, d: Disk, s: Slot, other: Slot)
    requires IsStamper(stamp)
    ensures At(stamp, Remove(stamp, d, s), other) == if other == s then None else At(stamp, d, other)
  {
    PathOfIsInjective(stamp, s, other);
  }

  // ---- The system calls of a camera that succeed.

  datatype Op =
    | Create(start: int)
    | Publish(start: int)
    | Describe(start: int, end: int)
    | Spoil(start: int)
    | Unlink
    | Symlink(start: int)
    | RemoveTmp(start: int)
    | RemoveVideo(start: int)
    | RemoveMetadata(start: int)

  // What a call of a camera does to the tree. Renaming needs its source; making a link
  // fails where there is something.
  function On(stamp: Stamper, d: Disk, camera: nat, op: Op): Disk {
    match op
    case Create(t) => Put(stamp, d, Tmp(camera, t), Bytes)
    case Publish(t) =>
      if At(stamp, d, Tmp(camera, t)).Some?
      then Put(stamp, Remove(stamp, d, Tmp(camera, t)), Video(camera, t), d[PathOf(stamp, Tmp(camera, t))])
      else d
    case Describe(t, end) => Put(stamp, d, Metadata(camera, t), Info(end))
    case Spoil(t) => Put(stamp, d, Metadata(camera, t), Garbage)
    case Unlink => Remove(stamp, d, Latest(camera))
    case Symlink(t) =>
      if At(stamp, d, Latest(camera)).Some? then d
      else Put(stamp, d, Latest(camera), Link(FileName(stamp(t), t)))
    case RemoveTmp(t) => Remove(stamp, d, Tmp(camera, t))
    case RemoveVideo(t) => Remove(stamp, d, Video(camera, t))
    case RemoveMetadata(t) => Remove(stamp, d, Metadata(camera, t))
  }

  function OnAll(stamp: Stamper, d: Disk, camera: nat, ops: seq<Op>): Disk
    decreases |ops|
  {
    if ops == [] then d else OnAll(stamp, On(stamp, d, camera, ops[0]), camera, ops[1..])
  }

  // The same on the camera's own files.
  function Apply(f: Files, op: Op): Files {
    match op
    case Create(t) => f.(tmp := f.tmp + {t})
    case Publish(t) => if t in f.tmp then f.(tmp := f.tmp - {t}, video := f.video + {t}) else f
    case Describe(t, end) => f.(meta := f.meta[t := end])
    case Spoil(t) => f.(meta := f.meta - {t})
    case Unlink => f.(latest := None)
    case Symlink(t) => if f.latest.None? then f.(latest := Some(t)) else f
    case RemoveTmp(t) => f.(tmp := f.tmp - {t})
    case RemoveVideo(t) => f.(video := f.video - {t})
    case RemoveMetadata(t) => f.(meta := f.meta - {t})
  }

  function ApplyAll(f: Files, ops: seq<Op>): Files
    decreases |ops|
  {
    if ops == [] then f else ApplyAll(Apply(f, ops[0]), ops[1..])
  }

  lemma {:induction false} ApplyAllConcat(f: Files, a: seq<Op>, b: seq<Op>)
    ensures ApplyAll(f, a + b) == ApplyAll(ApplyAll(f, a), b)
    decreases |a|
  {
    if a == [] {
      assert a + b == b;
    } else {
      assert (a + b)[0] == a[0] && (a + b)[1..] == a[1..] + b;
      ApplyAllConcat(Apply(f, a[0]), a[1..], b);
    }
  }

  // ---- What a camera sees.

  predicate IsInfo(c: Option<Content>) {
    c.Some? && c.value.Info?
  }

  // f is what the tree holds of a camera.
  ghost predicate Shows(stamp: Stamper, d: Disk, camera: nat, f: Files) {
    && (forall t :: t in f.tmp <==> At(stamp, d, Tmp(camera, t)).Some?)
    && (forall t :: t in f.video <==> At(stamp, d, Video(camera, t)).Some?)
    && (forall t :: t in f.meta <==> IsInfo(At(stamp, d, Metadata(camera, t))))
    && (forall t :: t in f.meta ==> At(stamp, d, Metadata(camera, t)) == Some(Info(f.meta[t])))
    && At(stamp, d, Latest(camera))
       == (if f.latest.Some? then Some(Link(FileName(stamp(f.latest.value), f.latest.value))) else None)
  }

  // It is all the tree holds of it.
  lemma ShowsOnlyOne(stamp: Stamper, d: Disk, camera: nat, f: Files, g: Files)
    requires IsStamper(stamp) && Shows(stamp, d, camera, f) && Shows(stamp, d, camera, g)
    ensures f == g
  {
    hide At;
    forall t ensures t in f.tmp <==> t in g.tmp {
      assert t in f.tmp <==> At(stamp, d, Tmp(camera, t)).Some?;
    }
    forall t ensures t in f.video <==> t in g.video {
      assert t in f.video <==> At(stamp, d, Video(camera, t)).Some?;
    }
    forall t ensures t in f.meta <==> t in g.meta {
      assert t in f.meta <==> IsInfo(At(stamp, d, Metadata(camera, t)));
    }
    assert f.meta.Keys == g.meta.Keys;
    forall t | t in f.meta ensures f.meta[t] == g.meta[t] {
      assert At(stamp, d, Metadata(camera, t)) == Some(Info(f.meta[t]));
    }
    assert f.meta == g.meta;
    if f.latest.Some? && g.latest.Some? {
      FileNameIsInjective(stamp(f.latest.value), f.latest.value, stamp(g.latest.value), g.latest.value);
    }
  }

  // What is there after a call.
  function AtAfter(stamp: Stamper, d: Disk, camera: nat, op: Op, s: Slot): Option<Content> {
    match op
    case Create(t) => if s == Tmp(camera, t) then Some(Bytes) else At(stamp, d, s)
    case Publish(t) =>
      var there := At(stamp, d, Tmp(camera, t));
      if there.None? then At(stamp, d, s)
      else if s == Tmp(camera, t) then None
      else if s == Video(camera, t) then there
      else At(stamp, d, s)
    case Describe(t, end) => if s == Metadata(camera, t) then Some(Info(end)) else At(stamp, d, s)
    case Spoil(t) => if s == Metadata(camera, t) then Some(Garbage) else At(stamp, d, s)
    case Unlink => if s == Latest(camera) then None else At(stamp, d, s)
    case Symlink(t) =>
      if s == Latest(camera) && At(stamp, d, s).None? then Some(Link(FileName(stamp(t), t))) else At(stamp, d, s)
    case RemoveTmp(t) => if s == Tmp(camera, t) then None else At(stamp, d, s)
    case RemoveVideo(t) => if s == Video(camera, t) then None else At(stamp, d, s)
    case RemoveMetadata(t) => if s == Metadata(camera, t) then None else At(stamp, d, s)
  }

  lemma AtAfterIsAt(stamp: Stamper, d: Disk, camera: nat, op: Op, s: Slot)
    requires IsStamper(stamp)
    ensures At(stamp, On(stamp, d, camera, op), s) == AtAfter(stamp, d, camera, op, s)
  {
    match op {
      case Create(t) => AtAfterPut(stamp, d, Tmp(camera, t), Bytes, s);
      case Publish(t) =>
        if At(stamp, d, Tmp(camera, t)).Some? {
          var content := d[PathOf(stamp, Tmp(camera, t))];
          AtAfterRemove(stamp, d, Tmp(camera, t), s);
          AtAfterPut(stamp, Remove(stamp, d, Tmp(camera, t)), Video(camera, t), content, s);
        }
      case Describe(t, end) => AtAfterPut(stamp, d, Metadata(camera, t), Info(end), s);
      case Spoil(t) => AtAfterPut(stamp, d, Metadata(camera, t), Garbage, s);
      case Unlink => AtAfterRemove(stamp, d, Latest(camera), s);
      case Symlink(t) => AtAfterPut(stamp, d, Latest(camera), Link(FileName(stamp(t), t)), s);
      case RemoveTmp(t) => AtAfterRemove(stamp, d, Tmp(camera, t), s);
      case RemoveVideo(t) => AtAfterRemove(stamp, d, Video(camera, t), s);
      case RemoveMetadata(t) => AtAfterRemove(stamp, d, Metadata(camera, t), s);
    }
  }

  // A call of a camera changes what it sees as it should, and nothing of what any other
  // camera sees.
  lemma OwnCall(stamp: Stamper, d: Disk, camera: nat, f: Files, op: Op)
    requires IsStamper(stamp) && Shows(stamp, d, camera, f)
    ensures Shows(stamp, On(stamp, d, camera, op), camera, Apply(f, op))
  {
    hide At, On, FileName;
    var e, g := On(stamp, d, camera, op), Apply(f, op);
    forall t ensures t in g.tmp <==> At(stamp, e, Tmp(camera, t)).Some? {
      AtAfterIsAt(stamp, d, camera, op, Tmp(camera, t));
    }
    forall t ensures t in g.video <==> At(stamp, e, Video(camera, t)).Some? {
      AtAfterIsAt(stamp, d, camera, op, Video(camera, t));
    }
    forall t ensures t in g.meta <==> IsInfo(At(stamp, e, Metadata(camera, t))) {
      AtAfterIsAt(stamp, d, camera, op, Metadata(camera, t));
    }
    forall t | t in g.meta ensures At(stamp, e, Metadata(camera, t)) == Some(Info(g.meta[t])) {
      AtAfterIsAt(stamp, d, camera, op, Metadata(camera, t));
    }
    AtAfterIsAt(stamp, d, camera, op, Latest(camera));
  }

  lemma OtherCall(stamp: Stamper, d: Disk, camera: nat, op: Op, other: nat, f: Files)
    requires IsStamper(stamp) && other != camera && Shows(stamp, d, other, f)
    ensures Shows(stamp, On(stamp, d, camera, op), other, f)
  {
    hide At, On, FileName;
    forall s: Slot | s.camera == other
      ensures At(stamp, On(stamp, d, camera, op), s) == At(stamp, d, s)
    {
      AtAfterIsAt(stamp, d, camera, op, s);
    }
  }

  lemma {:induction false} OwnCalls(stamp: Stamper, d: Disk, camera: nat, f: Files, ops: seq<Op>)
    requires IsStamper(stamp) && Shows(stamp, d, camera, f)
    ensures Shows(stamp, OnAll(stamp, d, camera, ops), camera, ApplyAll(f, ops))
    decreases |ops|
  {
    hide Shows, On, Apply;
    if ops != [] {
      OwnCall(stamp, d, camera, f, ops[0]);
      OwnCalls(stamp, On(stamp, d, camera, ops[0]), camera, Apply(f, ops[0]), ops[1..]);
    }
  }

  lemma {:induction false} OtherCalls(stamp: Stamper, d: Disk, camera: nat, ops: seq<Op>, other: nat, f: Files)
    requires IsStamper(stamp) && other != camera && Shows(stamp, d, other, f)
    ensures Shows(stamp, OnAll(stamp, d, camera, ops), other, f)
    decreases |ops|
  {
    hide Shows, On;
    if ops != [] {
      OtherCall(stamp, d, camera, ops[0], other, f);
      OtherCalls(stamp, On(stamp, d, camera, ops[0]), camera, ops[1..], other, f);
    }
  }

  lemma Untouched(stamp: Stamper, d: Disk, camera: nat, op: Op, s: Slot)
    requires IsStamper(stamp) && s.camera != camera
    ensures At(stamp, On(stamp, d, camera, op), s) == At(stamp, d, s)
  {
    hide At, On, FileName;
    AtAfterIsAt(stamp, d, camera, op, s);
  }

  // What a call leaves in a slot depends on what its own camera has.
  lemma AfterForeignCall(stamp: Stamper, d: Disk, a: nat, opA: Op, b: nat, opB: Op, s: Slot)
    requires IsStamper(stamp) && a != b && s.camera == a
    ensures At(stamp, On(stamp, On(stamp, d, b, opB), a, opA), s) == At(stamp, On(stamp, d, a, opA), s)
  {
    hide At, On, FileName;
    var e := On(stamp, d, b, opB);
    Untouched(stamp, d, b, opB, s);
    if opA.Publish? {
      Untouched(stamp, d, b, opB, Tmp(a, opA.start));
    }
    AtAfterIsAt(stamp, d, a, opA, s);
    AtAfterIsAt(stamp, e, a, opA, s);
  }

  // Calls of different cameras can be made in either order, so it does not matter how the
  // calls of cameras at work at the same time interleave.
  lemma CallsCommute(stamp: Stamper, d: Disk, a: nat, opA: Op, b: nat, opB: Op, s: Slot)
    requires IsStamper(stamp) && a != b
    ensures At(stamp, On(stamp, On(stamp, d, a, opA), b, opB), s) == At(stamp, On(stamp, On(stamp, d, b, opB), a, opA), s)
  {
    hide At, On;
    if s.camera != b {
      Untouched(stamp, On(stamp, d, a, opA), b, opB, s);
    }
    if s.camera != a {
      Untouched(stamp, On(stamp, d, b, opB), a, opA, s);
    }
    if s.camera == a {
      AfterForeignCall(stamp, d, a, opA, b, opB, s);
    } else if s.camera == b {
      AfterForeignCall(stamp, d, b, opB, a, opA, s);
    } else {
      Untouched(stamp, d, a, opA, s);
      Untouched(stamp, d, b, opB, s);
    }
  }
}
