// The texts that identify cameras and recordings: decimal camera ids and the file
// names built from them.
module Names {
  import opened Wrappers

  const UINT32_LIMIT: int := 0x1_0000_0000

  function Digit(d: int): char
    requires 0 <= d < 10
  {
    '0' + d as char
  }

  predicate IsDigit(c: char) {
    '0' <= c <= '9'
  }

  // strconv.FormatUint(n, 10)
  function Decimal(n: nat): (s: string)
    ensures forall i :: 0 <= i < |s| ==> IsDigit(s[i])
    ensures |s| > 0 && (|s| == 1 <==> n < 10)
  {
    if n < 10 then [Digit(n)] else Decimal(n / 10) + [Digit(n % 10)]
  }

  function SignedDecimal(n: int): string {
    if n < 0 then "-" + Decimal(-n) else Decimal(n)
  }

  // strconv.ParseUint(s, 10, 32): empty, a character that is no digit, and a value of
  // 2^32 or more are errors.
  function ParseDigits(s: string): Option<nat> {
    if s == [] then Some(0)
    else
      match ParseDigits(s[..|s| - 1])
      case None => None
      case Some(n) =>
        var c := s[|s| - 1];
        if IsDigit(c) && n * 10 + (c - '0') as int < UINT32_LIMIT then Some(n * 10 + (c - '0') as int) else None
  }

  function ParseCameraId(s: string): Option<nat> {
    if s == [] then None else ParseDigits(s)
  }

  lemma {:induction false} ParseOfDecimal(n: nat)
    requires n < UINT32_LIMIT
    ensures ParseCameraId(Decimal(n)) == Some(n)
  {
    var s := Decimal(n);
    assert ParseDigits([]) == Some(0);
    if n < 10 {
      assert s[..|s| - 1] == [];
    } else {
      ParseOfDecimal(n / 10);
      assert s[..|s| - 1] == Decimal(n / 10);
    }
  }

  lemma {:induction false} DecimalIsInjective(a: nat, b: nat)
    requires Decimal(a) == Decimal(b)
    ensures a == b
  {
    assert Decimal(a)[|Decimal(a)| - 1] == Digit(a % 10);
    assert Decimal(b)[|Decimal(b)| - 1] == Digit(b % 10);
    if a >= 10 && b >= 10 {
      assert Decimal(a)[..|Decimal(a)| - 1] == Decimal(a / 10);
      assert Decimal(b)[..|Decimal(b)| - 1] == Decimal(b / 10);
      DecimalIsInjective(a / 10, b / 10);
    }
  }

  // safeName: what a camera id is turned into before it becomes part of a path.
  function SafeName(s: string): string {
    if s == [] then []
    else
      var c := s[0];
      var keep := IsDigit(c) || 'a' <= c <= 'z' || 'A' <= c <= 'Z' || c == '-' || c == '_';
      [if keep then c else '-'] + SafeName(s[1..])
  }

  lemma {:induction false} DigitsAreSafe(s: string)
    requires forall i :: 0 <= i < |s| ==> IsDigit(s[i])
    ensures SafeName(s) == s
  {
    if s != [] {
      DigitsAreSafe(s[1..]);
    }
  }

  // A recording's file name. stamp is the start time to the second, in the 16
  // characters of the layout 20060102T150405Z.
  function FileName(stamp: string, start: int): string {
    stamp + "_" + SignedDecimal(start) + ".mp4"
  }

  function TempName(camera: nat, stamp: string, start: int): string {
    "camera-" + (SafeName(Decimal(camera)) + "-" + FileName(stamp, start)) + ".tmp"
  }

  lemma SameTail(a: string, b: string, tail: string)
    requires a + tail == b + tail
    ensures a == b
  {
    assert (a + tail)[..|a|] == a && (b + tail)[..|b|] == b;
  }

  lemma SignedDecimalIsInjective(a: int, b: int)
    requires SignedDecimal(a) == SignedDecimal(b)
    ensures a == b
  {
    assert SignedDecimal(a)[0] == '-' <==> a < 0;
    assert SignedDecimal(b)[0] == '-' <==> b < 0;
    if a < 0 {
      assert SignedDecimal(a)[1..] == Decimal(-a) && SignedDecimal(b)[1..] == Decimal(-b);
      DecimalIsInjective(-a, -b);
    } else {
      DecimalIsInjective(a, b);
    }
  }

  // Different start times never share a file, and no recording is called latest.mp4.
  lemma FileNameIsInjective(stampA: string, a: int, stampB: string, b: int)
    requires |stampA| == 16 && |stampB| == 16
    ensures FileName(stampA, a) == FileName(stampB, b) ==> a == b
    ensures FileName(stampA, a) != "latest.mp4"
  {
    if FileName(stampA, a) == FileName(stampB, b) {
      SameTail(stampA + "_" + SignedDecimal(a), stampB + "_" + SignedDecimal(b), ".mp4");
      assert (stampA + "_" + SignedDecimal(a))[17..] == SignedDecimal(a);
      assert (stampB + "_" + SignedDecimal(b))[17..] == SignedDecimal(b);
      SignedDecimalIsInjective(a, b);
    }
  }

  // The first character that is no digit ends the camera id.
  lemma DigitsBeforeDash(a: string, restA: string, b: string, restB: string)
    requires forall i :: 0 <= i < |a| ==> IsDigit(a[i])
    requires forall i :: 0 <= i < |b| ==> IsDigit(b[i])
    requires a + "-" + restA == b + "-" + restB
    ensures a == b && restA == restB
  {
    var s, t := a + "-" + restA, b + "-" + restB;
    assert s[|a|] == '-' && t[|b|] == '-';
    assert forall i :: 0 <= i < |a| ==> IsDigit(s[i]) && s[i] == a[i];
    assert forall i :: 0 <= i < |b| ==> IsDigit(t[i]) && t[i] == b[i];
    assert |a| == |b|;
    assert s[|a| + 1..] == restA && t[|b| + 1..] == restB;
  }

  lemma SamePlainName(a: string, b: string)
    requires "camera-" + a + ".tmp" == "camera-" + b + ".tmp"
    ensures a == b
  {
    SameTail("camera-" + a, "camera-" + b, ".tmp");
    assert ("camera-" + a)[7..] == a && ("camera-" + b)[7..] == b;
  }

  // The shared temporary directory keeps the cameras apart.
  lemma TempNameIsInjective(cameraA: nat, stampA: string, a: int, cameraB: nat, stampB: string, b: int)
    requires |stampA| == 16 && |stampB| == 16
    ensures TempName(cameraA, stampA, a) == TempName(cameraB, stampB, b) ==> cameraA == cameraB && a == b
  {
    if TempName(cameraA, stampA, a) == TempName(cameraB, stampB, b) {
      var idA, idB := Decimal(cameraA), Decimal(cameraB);
      DigitsAreSafe(idA);
      DigitsAreSafe(idB);
      var nameA, nameB := FileName(stampA, a), FileName(stampB, b);
      SamePlainName(idA + "-" + nameA, idB + "-" + nameB);
      DigitsBeforeDash(idA, nameA, idB, nameB);
      DecimalIsInjective(cameraA, cameraB);
      FileNameIsInjective(stampA, a, stampB, b);
    }
  }

  // ---- Which names of a camera's directory List, and Prune with it, take for recordings.

  predicate HasSuffix(s: string, tail: string) {
    |tail| <= |s| && s[|s| - |tail|..] == tail
  }

  // isSegmentFile, for a name that is no directory's.
  predicate IsSegmentFile(name: string) {
    HasSuffix(name, ".mp4") && name != "latest.mp4"
  }

  lemma SuffixOfSum(a: string, tail: string)
    ensures HasSuffix(a + tail, tail)
  {
  }

  lemma LastCharacter(s: string, tail: string)
    requires s != [] && tail != [] && HasSuffix(s, tail)
    ensures s[|s| - 1] == tail[|tail| - 1]
  {
    assert s[|s| - |tail|..][|tail| - 1] == s[|s| - 1];
  }

  // The finished recordings, but not their metadata, their temporary files or the link to
  // the newest one.
  lemma OnlyRecordingsAreSegmentFiles(camera: nat, stamp: string, start: int)
    requires |stamp| == 16
    ensures IsSegmentFile(FileName(stamp, start))
    ensures !IsSegmentFile(FileName(stamp, start) + ".json")
    ensures !IsSegmentFile(TempName(camera, stamp, start))
    ensures !IsSegmentFile("latest.mp4")
  {
    var name, temp := FileName(stamp, start), TempName(camera, stamp, start);
    SuffixOfSum(stamp + "_" + SignedDecimal(start), ".mp4");
    FileNameIsInjective(stamp, start, stamp, start);
    if HasSuffix(name + ".json", ".mp4") {
      LastCharacter(name + ".json", ".mp4");
    }
    if HasSuffix(temp, ".mp4") {
      LastCharacter(temp, ".mp4");
    }
  }
}
