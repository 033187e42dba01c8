/**
  One token bucket: refill with a clamp, the admission of a single call, and
  what a whole sequence of calls on one bucket gets.  A clock reading is given
  in tokens, that is, the time multiplied by the refill rate, so that one unit
  of clock is one token.  The API limiter and the LLM limiter both reduce to
  this bucket.
*/
module TokenBucket {

  datatype Bucket = Bucket(tokens: real, last: real)

  predicate Sound(burst: int, b: Bucket) {
    0.0 <= b.tokens <= burst as real
  }

  function Clamp(burst: int, x: real): real {
    if x > burst as real then burst as real else x
  }

  /** Tokens in the bucket once the time up to `now` has been credited. */
  function Refill(burst: int, b: Bucket, now: real): real {
    Clamp(burst, b.tokens + (now - b.last))
  }

  predicate Admits(burst: int, b: Bucket, now: real) {
    Refill(burst, b, now) >= 1.0
  }

  function AfterCall(burst: int, b: Bucket, now: real): Bucket {
    Bucket(Refill(burst, b, now) - (if Admits(burst, b, now) then 1.0 else 0.0), now)
  }

  function Full(burst: int, now: real): Bucket {
    Bucket(burst as real, now)
  }

  predicate Sorted(from: real, ts: seq<real>)
    decreases |ts|
  {
    ts == [] || (from <= ts[0] && Sorted(ts[0], ts[1..]))
  }

  /** The answers one bucket gives to calls at the clock readings `ts`. */
  function Ideal(burst: int, b: Bucket, ts: seq<real>): (answers: seq<bool>)
    ensures |answers| == |ts|
    decreases |ts|
  {
    if ts == [] then []
    else [Admits(burst, b, ts[0])] + Ideal(burst, AfterCall(burst, b, ts[0]), ts[1..])
  }

  /** Admitted calls among those made at a reading in [lo, hi]. */
  function AdmittedIn(answers: seq<bool>, ts: seq<real>, lo: real, hi: real): (n: nat)
    requires |answers| == |ts|
    ensures n <= |ts|
  {
    if ts == [] then 0
    else (if answers[0] && lo <= ts[0] <= hi then 1 else 0) + AdmittedIn(answers[1..], ts[1..], lo, hi)
  }

  function Trues(answers: seq<bool>): nat {
    if answers == [] then 0 else (if answers[0] then 1 else 0) + Trues(answers[1..])
  }

  // ---- the bound --------------------------------------------------------

  lemma {:induction false} NoneAfter(answers: seq<bool>, ts: seq<real>, from: real, lo: real, hi: real)
    requires |answers| == |ts| && Sorted(from, ts) && hi < from
    ensures AdmittedIn(answers, ts, lo, hi) == 0
    decreases |ts|
  {
    if ts != [] {
      NoneAfter(answers[1..], ts[1..], ts[0], lo, hi);
    }
  }

  lemma AdmittedInStep(burst: int, b: Bucket, ts: seq<real>, lo: real, hi: real)
    requires ts != []
    ensures AdmittedIn(Ideal(burst, b, ts), ts, lo, hi)
      == (if Admits(burst, b, ts[0]) && lo <= ts[0] <= hi then 1 else 0)
        + AdmittedIn(Ideal(burst, AfterCall(burst, b, ts[0]), ts[1..]), ts[1..], lo, hi)
  {
    assert Ideal(burst, b, ts)[1..] == Ideal(burst, AfterCall(burst, b, ts[0]), ts[1..]);
  }

  /** What a bucket can pay for up to `hi`, seen from time `s`. */
  function Purse(burst: int, b: Bucket, s: real, hi: real): real {
    Refill(burst, b, s) + (hi - s)
  }

  /** A bucket pays for every admission out of its level and the refill. */
  lemma {:induction false} Budget(burst: int, b: Bucket, ts: seq<real>, lo: real, hi: real, s: real)
    requires burst >= 1 && Sound(burst, b) && Sorted(b.last, ts)
    requires s == (if lo < b.last then b.last else lo) && s <= hi
    ensures AdmittedIn(Ideal(burst, b, ts), ts, lo, hi) as real <= Purse(burst, b, s, hi)
    decreases |ts|
  {
    if ts != [] {
      if hi < ts[0] {
        NoneAfter(Ideal(burst, b, ts), ts, ts[0], lo, hi);
      } else {
        AdmittedInStep(burst, b, ts, lo, hi);
        Budget(burst, AfterCall(burst, b, ts[0]), ts[1..], lo, hi, if ts[0] < lo then lo else ts[0]);
      }
    }
  }

  /** Calls admitted in an interval of length T never exceed burst + T. */
  lemma WindowBound(burst: int, b: Bucket, ts: seq<real>, lo: real, hi: real)
    requires burst >= 1 && Sound(burst, b) && Sorted(b.last, ts) && lo <= hi
    ensures AdmittedIn(Ideal(burst, b, ts), ts, lo, hi) as real <= burst as real + (hi - lo)
  {
    var s := if lo < b.last then b.last else lo;
    if s <= hi {
      Budget(burst, b, ts, lo, hi, s);
    } else {
      NoneAfter(Ideal(burst, b, ts), ts, b.last, lo, hi);
    }
  }

  // ---- the exact admission rule ----------------------------------------

  /** The level a full bucket has reached when call `i` arrives. */
  function LevelAt(burst: int, ts: seq<real>, i: nat): real
    requires i < |ts|
  {
    if i == 0 then burst as real
    else
      var before := LevelAt(burst, ts, i - 1);
      Clamp(burst, (if before >= 1.0 then before - 1.0 else before) + (ts[i] - ts[i - 1]))
  }

  lemma {:induction false} SortedAt(from: real, ts: seq<real>, i: nat)
    requires Sorted(from, ts) && i < |ts|
    ensures from <= ts[i] && (i > 0 ==> ts[i - 1] <= ts[i])
    decreases i
  {
    if i > 0 {
      SortedAt(ts[0], ts[1..], i - 1);
    }
  }

  /** Running a suffix from the bucket reached so far. */
  function BucketAt(burst: int, b: Bucket, ts: seq<real>, i: nat): Bucket
    requires i <= |ts|
  {
    if i == 0 then b else AfterCall(burst, BucketAt(burst, b, ts, i - 1), ts[i - 1])
  }

  lemma {:induction false} BucketAtStep(burst: int, b: Bucket, ts: seq<real>, i: nat)
    requires 0 < i <= |ts|
    ensures BucketAt(burst, b, ts, i) == BucketAt(burst, AfterCall(burst, b, ts[0]), ts[1..], i - 1)
  {
    if i > 1 {
      BucketAtStep(burst, b, ts, i - 1);
    }
  }

  lemma {:induction false} IdealAt(burst: int, b: Bucket, ts: seq<real>, i: nat)
    requires i < |ts|
    ensures Ideal(burst, b, ts)[i] == Admits(burst, BucketAt(burst, b, ts, i), ts[i])
    decreases i
  {
    if i > 0 {
      IdealAt(burst, AfterCall(burst, b, ts[0]), ts[1..], i - 1);
      BucketAtStep(burst, b, ts, i);
    }
  }

  lemma {:induction false} LevelIsRefill(burst: int, start: real, ts: seq<real>, i: nat)
    requires burst >= 1 && Sorted(start, ts) && i < |ts|
    ensures var b := BucketAt(burst, Full(burst, start), ts, i);
      Sound(burst, b) && b.last <= ts[i] && Refill(burst, b, ts[i]) == LevelAt(burst, ts, i)
  {
    SortedAt(start, ts, i);
    if i > 0 {
      LevelIsRefill(burst, start, ts, i - 1);
    }
  }

  /** Calls admitted from call `j` up to, not including, call `i`. */
  function AdmittedBetween(burst: int, ts: seq<real>, j: nat, i: nat): nat
    requires j <= i <= |ts|
  {
    if j == i then 0
    else AdmittedBetween(burst, ts, j, i - 1) + (if LevelAt(burst, ts, i - 1) >= 1.0 then 1 else 0)
  }

  /** What burst + T leaves over after `n` admissions in a window of length T. */
  function Left(burst: int, length: real, n: nat): real {
    burst as real + length - n as real
  }

  /** What is left at call `i` for the window opened by call `j`. */
  function Slack(burst: int, ts: seq<real>, j: nat, i: nat): real
    requires j <= i < |ts|
  {
    Left(burst, ts[i] - ts[j], AdmittedBetween(burst, ts, j, i))
  }

  /** The level is the least slack over all windows ending at the call. */
  lemma {:induction false} LevelIsLeastSlack(burst: int, ts: seq<real>, i: nat) returns (w: nat)
    requires burst >= 1 && i < |ts|
    ensures w <= i && LevelAt(burst, ts, i) == Slack(burst, ts, w, i)
    ensures forall j: nat :: j <= i ==> LevelAt(burst, ts, i) <= Slack(burst, ts, j, i)
  {
    if i == 0 {
      w := 0;
    } else {
      w := LevelIsLeastSlack(burst, ts, i - 1);
      forall j: nat | j < i
        ensures LevelAt(burst, ts, i) <= Slack(burst, ts, j, i)
      {
        assert LevelAt(burst, ts, i - 1) <= Slack(burst, ts, j, i - 1);
      }
      assert Slack(burst, ts, i, i) == burst as real;
      if LevelAt(burst, ts, i) != Slack(burst, ts, w, i) {
        w := i;
      }
    }
  }

  lemma {:induction false} AdmittedBetweenCounts(burst: int, start: real, ts: seq<real>, j: nat, i: nat)
    requires burst >= 1 && Sorted(start, ts) && j <= i <= |ts|
    ensures AdmittedBetween(burst, ts, j, i) == Trues(Ideal(burst, Full(burst, start), ts)[j..i])
  {
    var answers := Ideal(burst, Full(burst, start), ts);
    if j < i {
      AdmittedBetweenCounts(burst, start, ts, j, i - 1);
      IdealAt(burst, Full(burst, start), ts, i - 1);
      LevelIsRefill(burst, start, ts, i - 1);
      assert answers[j..i] == answers[j..i - 1] + [answers[i - 1]];
      TruesAppend(answers[j..i - 1], answers[i - 1]);
    }
  }

  lemma {:induction false} TruesAppend(xs: seq<bool>, x: bool)
    ensures Trues(xs + [x]) == Trues(xs) + (if x then 1 else 0)
  {
    if xs != [] {
      TruesAppend(xs[1..], x);
      assert (xs + [x])[1..] == xs[1..] + [x];
    }
  }

  /** Admitting call `i` as well keeps the bound on the window opened by call `j`. */
  predicate RoomFor(burst: int, ts: seq<real>, answers: seq<bool>, j: nat, i: nat)
    requires j <= i < |ts| == |answers|
  {
    Left(burst, ts[i] - ts[j], Trues(answers[j..i])) >= 1.0
  }

  lemma RoomIsSlack(burst: int, start: real, ts: seq<real>, j: nat, i: nat)
    requires burst >= 1 && Sorted(start, ts) && j <= i < |ts|
    ensures RoomFor(burst, ts, Ideal(burst, Full(burst, start), ts), j, i) == (Slack(burst, ts, j, i) >= 1.0)
  {
    AdmittedBetweenCounts(burst, start, ts, j, i);
  }

  /** A call is refused only when admitting it would break the bound for some
      window: the limiter is the most permissive one that keeps the bound. */
  lemma AdmitsIffBoundKept(burst: int, start: real, ts: seq<real>, i: nat)
    requires burst >= 1 && Sorted(start, ts) && i < |ts|
    ensures var answers := Ideal(burst, Full(burst, start), ts);
      answers[i] <==> forall j: nat :: j <= i ==> RoomFor(burst, ts, answers, j, i)
  {
    var answers := Ideal(burst, Full(burst, start), ts);
    var level := LevelAt(burst, ts, i);
    assert answers[i] == (level >= 1.0) by {
      IdealAt(burst, Full(burst, start), ts, i);
      LevelIsRefill(burst, start, ts, i);
    }
    var w := LevelIsLeastSlack(burst, ts, i);
    if answers[i] {
      forall j: nat | j <= i
        ensures RoomFor(burst, ts, answers, j, i)
      {
        assert level <= Slack(burst, ts, j, i);
        RoomIsSlack(burst, start, ts, j, i);
      }
    } else {
      RoomIsSlack(burst, start, ts, w, i);
      assert !RoomFor(burst, ts, answers, w, i);
    }
  }
}
