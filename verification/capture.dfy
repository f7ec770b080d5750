/**
 * The per-frame decision of MainActivity.QRAnalyzer.analyze and the camera
 * permission gate of onRequestPermissionsResult.
 *
 * Barcode decoding is external: a frame carries its decode outcome. The three
 * listener callbacks run one after another here, as one outcome per frame.
 */
module Capture {
  import opened Wrappers
  import opened ScanRecord
  import opened ScanDao

  /** One barcode reported by the decoder; its raw value may be null. */
  datatype Barcode = Barcode(rawValue: Option<string>)

  /** What the decoder reports for a frame: a list of barcodes, or a failure. */
  datatype DecodeOutcome = Decoded(barcodes: seq<Barcode>) | DecodeFailed

  /** The media image behind an ImageProxy; its rotation is only handed to the external decoder. */
  datatype Image = Image(rotationDegrees: int)

  /** A camera frame: the image may be null; the outcome is what decoding it would give. */
  datatype Frame = Frame(image: Option<Image>, outcome: DecodeOutcome)

  /** The scans handed to the view model for insertion, and how often the frame was closed. */
  datatype FrameResult = FrameResult(inserted: seq<Scan>, closes: nat)

  /** The non-null raw values, in barcode order. */
  function RawValues(bs: seq<Barcode>): (vs: seq<string>)
    ensures |vs| <= |bs|
  {
    if |bs| == 0 then []
    else if bs[0].rawValue.Some? then [bs[0].rawValue.value] + RawValues(bs[1..])
    else RawValues(bs[1..])
  }

  /** The raw-value slots of a barcode list, nulls included. */
  function Slots(bs: seq<Barcode>): seq<Option<string>>
  {
    seq(|bs|, i requires 0 <= i < |bs| => bs[i].rawValue)
  }

  /** Scans built from the given contents, all stamped with the same clock reading. */
  function ScansOf(contents: seq<string>, now: int): (scans: seq<Scan>)
    ensures |scans| == |contents|
    ensures forall i :: 0 <= i < |scans| ==> scans[i] == NewScan(contents[i], now)
  {
    seq(|contents|, i requires 0 <= i < |contents| => NewScan(contents[i], now))
  }

  /**
   * analyze as written: a null image is ignored entirely (not decoded and not
   * closed); otherwise every non-null raw value of a successful decode becomes
   * a new Scan, and the frame is closed once whatever the outcome.
   */
  function Analyze(f: Frame, now: int): (r: FrameResult)
    ensures f.image.None? ==> r.inserted == [] && r.closes == 0
    ensures f.image.Some? ==> r.closes == 1
    ensures f.outcome.DecodeFailed? ==> r.inserted == []
    ensures f.image.Some? && f.outcome.Decoded? ==>
      |r.inserted| == |RawValues(f.outcome.barcodes)| &&
      forall i :: 0 <= i < |r.inserted| ==>
        r.inserted[i].content == RawValues(f.outcome.barcodes)[i] &&
        r.inserted[i].id == UnassignedId && r.inserted[i].timestamp == now
  {
    match f.image
    case None => FrameResult([], 0)
    case Some(_) =>
      match f.outcome
      case Decoded(bs) => FrameResult(ScansOf(RawValues(bs), now), 1)
      case DecodeFailed => FrameResult([], 1)
  }

  /** analyze with the frame closed on every path, including a null image. */
  function AnalyzeClosing(f: Frame, now: int): (r: FrameResult)
    ensures r.closes == 1
    ensures r.inserted == Analyze(f, now).inserted
  {
    Analyze(f, now).(closes := 1)
  }

  /** A null image is never closed by the analyzer as written. */
  lemma NullImageLeftOpen(now: int)
    ensures Analyze(Frame(None, Decoded([Barcode(Some("x"))])), now).closes == 0
    ensures AnalyzeClosing(Frame(None, Decoded([Barcode(Some("x"))])), now).closes == 1
  {
  }

  /** Filtering distributes over concatenation: frames split anywhere keep barcode order. */
  lemma {:induction false} RawValuesAppend(a: seq<Barcode>, b: seq<Barcode>)
    ensures RawValues(a + b) == RawValues(a) + RawValues(b)
  {
    if |a| == 0 {
      assert a + b == b;
    } else {
      assert (a + b)[1..] == a[1..] + b;
      RawValuesAppend(a[1..], b);
    }
  }

  /** Each value is kept exactly as often as barcodes carry it: nothing is deduplicated or invented. */
  lemma {:induction false} RawValuesCount(bs: seq<Barcode>, v: string)
    ensures multiset(RawValues(bs))[v] == multiset(Slots(bs))[Some(v)]
  {
    if |bs| > 0 {
      RawValuesCount(bs[1..], v);
      assert Slots(bs) == [bs[0].rawValue] + Slots(bs[1..]);
    }
  }

  /** Null raw values are dropped; a frame of only null values inserts nothing. */
  lemma {:induction false} AllNullInsertsNothing(bs: seq<Barcode>)
    requires forall i :: 0 <= i < |bs| ==> bs[i].rawValue.None?
    ensures RawValues(bs) == []
  {
    if |bs| > 0 {
      AllNullInsertsNothing(bs[1..]);
    }
  }

  /** With no null values the inserted contents are the raw values one for one. */
  lemma {:induction false} NoNullKeepsAll(bs: seq<Barcode>)
    requires forall i :: 0 <= i < |bs| ==> bs[i].rawValue.Some?
    ensures |RawValues(bs)| == |bs|
    ensures forall i :: 0 <= i < |bs| ==> RawValues(bs)[i] == bs[i].rawValue.value
  {
    if |bs| > 0 {
      NoNullKeepsAll(bs[1..]);
    }
  }

  /**
   * Inserts scans built with the default id one after another. Each insert
   * succeeds and takes the next counter value.
   */
  function InsertAll(st: Store, scans: seq<Scan>): (st': Store)
    requires forall i :: 0 <= i < |scans| ==> scans[i].id == UnassignedId
    ensures |st'.rows| == |st.rows| + |scans|
    ensures st'.rows[..|st.rows|] == st.rows
    ensures forall i :: 0 <= i < |scans| ==>
      st'.rows[|st.rows| + i].content == scans[i].content &&
      st'.rows[|st.rows| + i].timestamp == scans[i].timestamp
    ensures Valid(st) ==> Valid(st')
    ensures Valid(st) ==> forall i, j :: |st.rows| <= i < j < |st'.rows| ==> st'.rows[i].id < st'.rows[j].id
    decreases |scans|
  {
    if |scans| == 0 then st
    else
      var next := Insert(st, scans[0]).value;
      var st' := InsertAll(next, scans[1..]);
      assert st'.rows[..|st.rows|] == next.rows[..|st.rows|];
      assert forall i :: 1 <= i < |scans| ==> scans[1..][i - 1] == scans[i];
      st'
  }

  /** One frame of a scanning session: analyze it, then insert what it produced. */
  function RecordFrame(st: Store, f: Frame, now: int): (st': Store)
    ensures |st'.rows| == |st.rows| + |AnalyzeClosing(f, now).inserted|
    ensures st'.rows[..|st.rows|] == st.rows
    ensures Valid(st) ==> Valid(st')
  {
    InsertAll(st, AnalyzeClosing(f, now).inserted)
  }

  /** The same code seen in two frames is inserted twice: there is no deduplication across frames. */
  lemma RepeatedFramesInsertTwice(st: Store, f: Frame, t1: int, t2: int)
    requires f.image.Some? && f.outcome.Decoded?
    ensures |RecordFrame(RecordFrame(st, f, t1), f, t2).rows| == |st.rows| + 2 * |RawValues(f.outcome.barcodes)|
  {
  }

  /** The request code used when asking for the camera permission. */
  const CameraRequestCode: int := 101

  /** PackageManager.PERMISSION_GRANTED and PERMISSION_DENIED. */
  const PermissionGranted: int := 0
  const PermissionDenied: int := -1

  /** onRequestPermissionsResult: the camera starts only for our request, with a first result granted. */
  function StartsCamera(requestCode: int, grantResults: seq<int>): (start: bool)
    ensures start ==> requestCode == CameraRequestCode
    ensures start ==> |grantResults| > 0 && grantResults[0] == PermissionGranted
    ensures requestCode == CameraRequestCode && |grantResults| > 0 && grantResults[0] == PermissionGranted ==> start
  {
    requestCode == CameraRequestCode && |grantResults| > 0 && grantResults[0] == PermissionGranted
  }

  /** A denial or an empty (cancelled) answer to the camera request never starts the camera. */
  lemma CameraGateOutcomes(rest: seq<int>)
    ensures StartsCamera(CameraRequestCode, [PermissionGranted] + rest)
    ensures !StartsCamera(CameraRequestCode, [PermissionDenied] + rest)
    ensures !StartsCamera(CameraRequestCode, [])
  {
  }
}
