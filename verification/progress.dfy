/**
 * The progress display of the upload page: the percentage computed from an
 * upload progress event, and the status texts shown beside the bar.
 */
module Progress {
  import opened Wrappers
  import Decimal

  /** One upload progress notification: bytes sent so far, and the body size
      when the transport knows it. */
  datatype ProgressEvent = ProgressEvent(loaded: nat, total: Option<nat>)

  /** `updateProgress`'s default status text, also the page's initial one. */
  const DefaultStatus: string := "Processing..."
  const StartPercent: nat := 10
  const StartStatus: string := "Uploading file..."
  const DonePercent: nat := 100
  const DoneStatus: string := "File uploaded successfully!"
  const UploadingPrefix: string := "Uploading... "

  /** `progressEvent.total || 1`: an absent or zero total divides by one. */
  function Divisor(total: Option<nat>): (t: nat)
    ensures t >= 1
    ensures total.Some? && total.value > 0 ==> t == total.value
    ensures total.None? || total.value == 0 ==> t == 1
  {
    if total.Some? && total.value > 0 then total.value else 1
  }

  /** `Math.round(loaded * 100 / divisor)` on non-negative operands:
      the integer nearest to 100 * loaded / t, a half rounded up. */
  function UploadPercent(e: ProgressEvent): (p: nat)
    ensures var t := Divisor(e.total);
      2 * t * p <= 200 * e.loaded + t < 2 * t * (p + 1)
  {
    var t := Divisor(e.total);
    (200 * e.loaded + t) / (2 * t)
  }

  /** Multiplying by a non-negative factor keeps the order. */
  lemma {:induction false} MulLe(m: nat, x: int, y: int)
    ensures x <= y ==> m * x <= m * y
    decreases m
  {
    if m > 0 {
      MulLe(m - 1, x, y);
      assert m * x == (m - 1) * x + x && m * y == (m - 1) * y + y;
    }
  }

  /** Once the total is known and not exceeded, the percentage lies in 0..100,
      and the last byte of a non-empty body shows 100. */
  lemma PercentWithinBounds(e: ProgressEvent)
    requires e.total.Some? && e.loaded <= e.total.value
    ensures 0 <= UploadPercent(e) <= 100
    ensures e.loaded == e.total.value > 0 ==> UploadPercent(e) == 100
  {
    var t, p := Divisor(e.total), UploadPercent(e);
    assert e.loaded <= t;
    MulLe(2 * t, 101, p);
    MulLe(2 * t, p + 1, 100);
  }

  /** More bytes sent, of the same total, never show a smaller percentage. */
  lemma PercentMonotone(e1: ProgressEvent, e2: ProgressEvent)
    requires e1.total == e2.total && e1.loaded <= e2.loaded
    ensures UploadPercent(e1) <= UploadPercent(e2)
  {
    var t, p1, p2 := Divisor(e1.total), UploadPercent(e1), UploadPercent(e2);
    MulLe(2 * t, p2 + 1, p1);
  }

  /** The status text `Uploading... {percent}%`. */
  function UploadingStatus(percent: nat): (s: string)
    ensures |s| > |UploadingPrefix| + 1
    ensures s[..|UploadingPrefix|] == UploadingPrefix && s[|s| - 1] == '%'
    ensures s[|UploadingPrefix|..|s| - 1] == Decimal.NatToString(percent)
  {
    UploadingPrefix + Decimal.NatToString(percent) + "%"
  }

  /** Reads the percentage back out of an uploading status text. */
  function ParseUploadingStatus(s: string): Option<nat> {
    var n := |UploadingPrefix|;
    if |s| >= n + 2 && s[..n] == UploadingPrefix && s[|s| - 1] == '%'
       && (forall k :: n <= k < |s| - 1 ==> Decimal.IsDigit(s[k]))
    then
      var digits := s[n..|s| - 1];
      assert forall k :: 0 <= k < |digits| ==> Decimal.IsDigit(digits[k]) by {
        forall k | 0 <= k < |digits| ensures Decimal.IsDigit(digits[k]) {
          assert digits[k] == s[n + k];
        }
      }
      Some(Decimal.ParseDigits(digits))
    else None
  }

  /** The status text carries exactly the percentage it was built from, and no
      uploading status is mistaken for the page's other status texts. */
  lemma UploadingStatusRoundTrip(percent: nat)
    ensures ParseUploadingStatus(UploadingStatus(percent)) == Some(percent)
    ensures UploadingStatus(percent) != DefaultStatus
    ensures UploadingStatus(percent) != StartStatus
    ensures UploadingStatus(percent) != DoneStatus
  {
    var s, d := UploadingStatus(percent), Decimal.NatToString(percent);
    var n := |UploadingPrefix|;
    assert s[..n] == UploadingPrefix;
    assert s[n..|s| - 1] == d;
    Decimal.ParseNatToString(percent);
    assert s[0] == 'U' && s[n - 1] == ' ';
    assert DoneStatus[0] != 'U' && DefaultStatus[0] != 'U';
    assert StartStatus[n - 1] != ' ';
  }

  /** The percentages a sequence of progress events shows, in delivery order. */
  function Percents(events: seq<ProgressEvent>): (ps: seq<nat>)
    ensures |ps| == |events|
    ensures forall k :: 0 <= k < |events| ==> ps[k] == UploadPercent(events[k])
  {
    if events == [] then [] else Percents(events[..|events| - 1]) + [UploadPercent(events[|events| - 1])]
  }

  predicate NonDecreasing(ps: seq<nat>) {
    forall a, b :: 0 <= a <= b < |ps| ==> ps[a] <= ps[b]
  }

  /** Events of one request report a fixed total and a growing byte count, in
      transmission order. */
  predicate OneRequest(events: seq<ProgressEvent>) {
    forall a, b :: 0 <= a <= b < |events| ==>
      events[a].total == events[b].total && events[a].loaded <= events[b].loaded
  }

  /** The percentages shown for the events of one request never go down. */
  lemma PercentsNonDecreasing(events: seq<ProgressEvent>)
    requires OneRequest(events)
    ensures NonDecreasing(Percents(events))
  {
    var ps := Percents(events);
    forall a, b | 0 <= a <= b < |ps| ensures ps[a] <= ps[b] {
      PercentMonotone(events[a], events[b]);
    }
  }

  /** Every event of the request reports a known total it does not exceed. */
  predicate WithinTotal(events: seq<ProgressEvent>) {
    forall k :: 0 <= k < |events| ==>
      events[k].total.Some? && events[k].loaded <= events[k].total.value
  }

  /** The percentages a successful upload shows after its starting 10: those of
      its events, then 100. When the events belong to one request and stay
      within their total, this run never goes down and stays within 0..100. */
  lemma SuccessfulRunRises(events: seq<ProgressEvent>)
    requires OneRequest(events) && WithinTotal(events)
    ensures var run := Percents(events) + [DonePercent];
      NonDecreasing(run) && forall k :: 0 <= k < |run| ==> run[k] <= 100
  {
    var ps := Percents(events);
    var run := ps + [DonePercent];
    PercentsNonDecreasing(events);
    forall k | 0 <= k < |ps| ensures ps[k] <= 100 {
      PercentWithinBounds(events[k]);
    }
    forall a, b | 0 <= a <= b < |run| ensures run[a] <= run[b] {
      if b == |ps| {
        assert run[b] == DonePercent;
      } else {
        assert run[a] == ps[a] && run[b] == ps[b];
      }
    }
  }

  /** The starting 10 is not a floor: a first event reporting 1 byte of 100
      shows 1. */
  lemma FirstEventMayShowLessThanStart()
    ensures UploadPercent(ProgressEvent(1, Some(100))) == 1 < StartPercent
  {
  }

  /** Without a known total the divisor is 1, so the bar shows 100 times the
      bytes sent: 5 bytes show 500, more than the final 100. */
  lemma UnknownTotalShowsOverHundred()
    ensures UploadPercent(ProgressEvent(5, None)) == 500
    ensures !NonDecreasing(Percents([ProgressEvent(5, None)]) + [DonePercent])
  {
    var run := Percents([ProgressEvent(5, None)]) + [DonePercent];
    assert run[0] == 500 && run[1] == 100;
  }
}
