/** The detail page of one verification request: the document viewer's zoom
    and rotation, the liveness frame player, and the progress tracker. The
    avatar initials are `KycVerification.Initials`, which this page computes
    the same way. */
module KycDetails {
  import opened Wrappers
  import opened KycService

  // ------------------------------------------------------ document viewer

  const MinZoom := 0.5
  const MaxZoom := 3.0
  const ZoomStep := 0.25

  /** `handleZoomIn` */
  function ZoomIn(z: real): real {
    if z + ZoomStep < MaxZoom then z + ZoomStep else MaxZoom
  }

  /** `handleZoomOut` */
  function ZoomOut(z: real): real {
    if z - ZoomStep > MinZoom then z - ZoomStep else MinZoom
  }

  /** Both buttons keep the zoom in `[0.5, 3]`, each moves it by a quarter
      until it reaches a bound, and one click back undoes one click away
      from a bound. */
  lemma ZoomStaysInRange(z: real)
    ensures MinZoom <= z <= MaxZoom ==> MinZoom <= ZoomIn(z) <= MaxZoom && MinZoom <= ZoomOut(z) <= MaxZoom
    ensures z <= MaxZoom - ZoomStep ==> ZoomIn(z) == z + ZoomStep
    ensures z >= MinZoom + ZoomStep ==> ZoomOut(z) == z - ZoomStep
    ensures MinZoom <= z <= MaxZoom - ZoomStep ==> ZoomOut(ZoomIn(z)) == z
    ensures MinZoom + ZoomStep <= z <= MaxZoom ==> ZoomIn(ZoomOut(z)) == z
  {
  }

  /** `handleRotate`. The angle is never negative, so JavaScript's `%`
      agrees with Dafny's here. */
  function Rotate(r: nat): nat {
    (r + 90) % 360
  }

  predicate RightAngle(r: int) {
    r == 0 || r == 90 || r == 180 || r == 270
  }

  /** Rotation stays a right angle, and four turns bring it back. */
  lemma RotateRightAngles(r: nat)
    ensures RightAngle(r) ==> RightAngle(Rotate(r))
    ensures RightAngle(r) ==> Rotate(Rotate(Rotate(Rotate(r)))) == r
  {
    assert Rotate(0) == 90 && Rotate(90) == 180 && Rotate(180) == 270 && Rotate(270) == 0;
  }

  class DocumentViewer {
    var selected: Option<Document>
    var zoom: real
    var rotation: nat

    predicate Valid()
      reads this
    {
      MinZoom <= zoom <= MaxZoom && RightAngle(rotation)
    }

    /** The first document selected, no zoom, no rotation. */
    constructor (documents: seq<Document>)
      ensures Valid()
      ensures selected == (if documents == [] then None else Some(documents[0]))
      ensures zoom == 1.0 && rotation == 0
    {
      selected := if documents == [] then None else Some(documents[0]);
      zoom := 1.0;
      rotation := 0;
    }

    method ClickZoomIn()
      requires Valid()
      modifies this`zoom
      ensures Valid() && zoom == ZoomIn(old(zoom))
    {
      ZoomStaysInRange(zoom);
      zoom := ZoomIn(zoom);
    }

    method ClickZoomOut()
      requires Valid()
      modifies this`zoom
      ensures Valid() && zoom == ZoomOut(old(zoom))
    {
      ZoomStaysInRange(zoom);
      zoom := ZoomOut(zoom);
    }

    method ClickRotate()
      requires Valid()
      modifies this`rotation
      ensures Valid() && rotation == Rotate(old(rotation))
    {
      RotateRightAngles(rotation);
      rotation := Rotate(rotation);
    }

    /** A thumbnail: the zoom and rotation carry over to the new document. */
    method SelectDocument(d: Document)
      requires Valid()
      modifies this`selected
      ensures Valid() && selected == Some(d)
    {
      selected := Some(d);
    }
  }

  // --------------------------------------------------------- frame player

  /** The frame after `i` in a loop of `len` frames. */
  function NextFrame(i: nat, len: nat): (j: nat)
    requires len > 0
    ensures j < len
  {
    (i + 1) % len
  }

  /** `k` frame steps from `i`. */
  function Advance(i: nat, len: nat, k: nat): (j: nat)
    requires len > 0 && i < len
    ensures j < len
  {
    if k == 0 then i else NextFrame(Advance(i, len, k - 1), len)
  }

  /** Playback goes round the frames in order: `k` steps from frame `i`
      reach frame `(i + k) mod len`, so every frame is shown and after
      `len` steps the player is back where it started. */
  lemma {:induction false} AdvanceWraps(i: nat, len: nat, k: nat)
    requires len > 0 && i < len
    ensures Advance(i, len, k) == (i + k) % len
    ensures Advance(i, len, len) == i
  {
    AdvanceMod(i, len, k);
    AdvanceMod(i, len, len);
    ModUnique(i + len, len, 1, i);
  }

  lemma {:induction false} AdvanceMod(i: nat, len: nat, k: nat)
    requires len > 0 && i < len
    ensures Advance(i, len, k) == (i + k) % len
  {
    if k == 0 {
      ModUnique(i, len, 0, i);
    } else {
      AdvanceMod(i, len, k - 1);
      var x: nat := i + k - 1;
      var a := Advance(i, len, k - 1);
      assert a == x % len;
      assert Advance(i, len, k) == (a + 1) % len;
      ModSucc(x, len);
    }
  }

  lemma MulAtLeast(a: int, len: nat)
    requires a >= 1
    ensures a * len >= len
  {
    assert a * len == (a - 1) * len + len;
  }

  /** The remainder is the one `r` in `[0, len)` with `y = q*len + r`. */
  lemma ModUnique(y: int, len: nat, q: int, r: int)
    requires len > 0 && 0 <= r < len && y == q * len + r
    ensures y % len == r
  {
    var q' := y / len;
    var r' := y % len;
    assert (q - q') * len == r' - r;
    if q > q' {
      MulAtLeast(q - q', len);
    } else if q < q' {
      MulAtLeast(q' - q, len);
    }
  }

  lemma ModSucc(x: nat, len: nat)
    requires len > 0
    ensures (x + 1) % len == (x % len + 1) % len
  {
    var a := x % len;
    var q := x / len;
    if a + 1 < len {
      ModUnique(x + 1, len, q, a + 1);
    } else {
      assert x + 1 == (q + 1) * len + 0;
      ModUnique(x + 1, len, q + 1, 0);
    }
    ModUnique(a + 1, len, if a + 1 < len then 0 else 1, if a + 1 < len then a + 1 else 0);
  }

  class LivenessPlayer {
    var frames: seq<Frame>
    var playing: bool
    var index: nat

    /** The index names a frame whenever there is one, and only a player with
        frames plays. */
    predicate Valid()
      reads this
    {
      (frames == [] ==> index == 0 && !playing) &&
      (frames != [] ==> index < |frames|)
    }

    constructor (fs: seq<Frame>)
      ensures Valid()
      ensures frames == fs && !playing && index == 0
    {
      frames := fs;
      playing := false;
      index := 0;
    }

    /** The effect on a new `frames` prop: back to the first frame, stopped. */
    method FramesChanged(fs: seq<Frame>)
      requires Valid()
      modifies this
      ensures Valid()
      ensures frames == fs && !playing && index == 0
    {
      frames := fs;
      playing := false;
      index := 0;
    }

    /** `togglePlayback`: nothing without frames, otherwise play or pause. */
    method Toggle()
      requires Valid()
      modifies this`playing
      ensures Valid()
      ensures playing == if frames == [] then old(playing) else !old(playing)
    {
      if |frames| != 0 {
        playing := !playing;
      }
    }

    /** One frame interval of the running animation. */
    method Tick()
      requires Valid() && playing
      modifies this`index
      ensures Valid()
      ensures index == NextFrame(old(index), |frames|)
    {
      index := NextFrame(index, |frames|);
    }

    /** A click on the marker of frame `i`: that frame, playback stopped. */
    method MarkerClick(i: nat)
      requires Valid() && i < |frames|
      modifies this`index, this`playing
      ensures Valid()
      ensures index == i && !playing
    {
      index := i;
      if playing {
        playing := false;
      }
    }
  }

  // --------------------------------------------------------- progress tracker

  datatype Step = Step(name: string, completed: bool)

  /** `getProgressSteps` */
  function ProgressSteps(k: Kyc): (steps: seq<Step>)
    ensures |steps| == 4
    ensures steps[0] == Step("Information", true)
    ensures steps[1].name == "Documents" && (steps[1].completed <==> |k.documents| > 0)
    ensures steps[2].name == "Liveness" && (steps[2].completed <==> k.livenessCheck.Some?)
    ensures steps[3].name == "Verification" && (steps[3].completed <==> k.status != "pending")
  {
    [Step("Information", true),
     Step("Documents", |k.documents| != 0),
     Step("Liveness", k.livenessCheck.Some?),
     Step("Verification", k.status != "pending")]
  }

  /** Approving or rejecting (`setKycData({ ...kycData, status })`) completes
      the verification step and no other. */
  lemma DecisionCompletesVerification(k: Kyc, status: string)
    requires status != "pending"
    ensures ProgressSteps(k.(status := status))[3].completed
    ensures ProgressSteps(k.(status := status))[..3] == ProgressSteps(k)[..3]
  {
  }
}
