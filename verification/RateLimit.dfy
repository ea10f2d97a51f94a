/** The token bucket per connection: exact over whole runs, with or without the cleanup of idle buckets. */
module RateLimit {
  import opened Text

  datatype Bucket = Bucket(tokens: real, last: real)

  datatype Limits = Limits(rate: real, burst: nat)

  const IDLE := 300.0   // 5 minutes

  /** Tokens that flow in during some time. */
  function Gain(l: Limits, elapsed: real): real {
    elapsed * l.rate
  }

  function Refilled(l: Limits, b: Option<Bucket>, now: real): real {
    var full := l.burst as real;
    if b.None? then full
    else
      var t := b.value.tokens + Gain(l, now - b.value.last);
      if t > full then full else t
  }

  function Answer(l: Limits, b: Option<Bucket>, now: real): bool {
    Refilled(l, b, now) >= 1.0
  }

  function Used(l: Limits, b: Option<Bucket>, now: real): Bucket {
    Bucket(if Answer(l, b, now) then Refilled(l, b, now) - 1.0 else Refilled(l, b, now), now)
  }

  // ---------------------------------------------------------------- one connection

  ghost predicate Ordered(ts: seq<real>) {
    forall i, j :: 0 <= i <= j < |ts| ==> ts[i] <= ts[j]
  }

  /** The bucket after requests at the given times, never dropped in between. */
  function After(l: Limits, ts: seq<real>): Option<Bucket> {
    if ts == [] then None else Some(Used(l, After(l, ts[..|ts| - 1]), ts[|ts| - 1]))
  }

  /** The answer to the i-th request. */
  function Allowed(l: Limits, ts: seq<real>, i: nat): bool
    requires i < |ts|
  {
    Answer(l, After(l, ts[..i]), ts[i])
  }

  /** Allowed requests among the i-th to the last. */
  function CountFrom(l: Limits, ts: seq<real>, i: nat): nat
    requires i <= |ts|
    decreases |ts|
  {
    if i == |ts| then 0
    else CountFrom(l, ts[..|ts| - 1], i) + (if Allowed(l, ts, |ts| - 1) then 1 else 0)
  }

  /** Allowed requests at or after the instant s. */
  function CountSince(l: Limits, ts: seq<real>, s: real): nat {
    if ts == [] then 0
    else
      var n := |ts| - 1;
      CountSince(l, ts[..n], s) + (if ts[n] >= s && Allowed(l, ts, n) then 1 else 0)
  }

  /** What the requests from the i-th on have left of a bucket that was full at the i-th. */
  function Left(l: Limits, ts: seq<real>, i: nat, now: real): real
    requires i < |ts|
  {
    l.burst as real + Gain(l, now - ts[i]) - CountFrom(l, ts, i) as real
  }

  lemma GainAdds(l: Limits, a: real, b: real, c: real)
    ensures Gain(l, c - a) == Gain(l, b - a) + Gain(l, c - b)
  {
  }

  lemma NoGain(l: Limits)
    ensures Gain(l, 0.0) == 0.0
  {
  }

  lemma CountNext(l: Limits, ts: seq<real>, t: real, i: nat)
    requires i <= |ts|
    ensures CountFrom(l, ts + [t], i) == CountFrom(l, ts, i) + (if Answer(l, After(l, ts), t) then 1 else 0)
    ensures CountFrom(l, ts, |ts|) == 0
  {
    hide Answer, After;
    var us := ts + [t];
    assert us[..|us| - 1] == ts && us[..|ts|] == ts;
  }

  lemma LeftNext(l: Limits, ts: seq<real>, t: real, i: nat)
    requires i < |ts|
    ensures var us := ts + [t];
      Left(l, us, i, t) == Left(l, ts, i, t) - (if Answer(l, After(l, ts), t) then 1.0 else 0.0)
  {
    hide Answer, After, CountFrom, Gain;
    NoGain(l);
    CountNext(l, ts, t, i);
  }

  /** The tokens of a bucket are the least of what any earlier instant leaves. */
  ghost predicate IsLeast(l: Limits, ts: seq<real>, tokens: real, now: real) {
    && (forall i :: 0 <= i < |ts| ==> tokens <= Left(l, ts, i, now))
    && (exists i :: 0 <= i < |ts| && tokens == Left(l, ts, i, now))
  }

  /** Just before an answer: the refilled tokens are the least over the earlier instants and the present one. */
  lemma RefilledIsLeast(l: Limits, ts: seq<real>, t: real)
    requires ts != [] && IsLeast(l, ts, After(l, ts).value.tokens, After(l, ts).value.last)
    ensures var r := Refilled(l, After(l, ts), t);
      && r <= l.burst as real
      && (forall i :: 0 <= i < |ts| ==> r <= Left(l, ts, i, t))
      && (r == l.burst as real || exists i :: 0 <= i < |ts| && r == Left(l, ts, i, t))
  {
    hide Left, Used, Gain;
    var b := After(l, ts).value;
    var gain := Gain(l, t - b.last);
    forall i | 0 <= i < |ts| ensures Left(l, ts, i, t) == Left(l, ts, i, b.last) + gain {
      LeftLater(l, ts, i, b.last, t);
    }
    var i :| 0 <= i < |ts| && b.tokens == Left(l, ts, i, b.last);
    var r := Refilled(l, After(l, ts), t);
    assert r == if b.tokens + gain > l.burst as real then l.burst as real else b.tokens + gain;
    assert r == l.burst as real || r == Left(l, ts, i, t);
  }

  lemma LeftLater(l: Limits, ts: seq<real>, i: nat, u: real, t: real)
    requires i < |ts|
    ensures Left(l, ts, i, t) == Left(l, ts, i, u) + Gain(l, t - u)
  {
    hide CountFrom, Gain;
    GainAdds(l, ts[i], u, t);
  }

  lemma AfterSnoc(l: Limits, ts: seq<real>, t: real)
    ensures After(l, ts + [t]) == Some(Used(l, After(l, ts), t))
  {
    hide Used;
    assert (ts + [t])[..|ts|] == ts;
  }

  lemma NoneAfter(l: Limits)
    ensures After(l, []) == None
  {
  }

  lemma {:induction false} TokensAreLeast(l: Limits, ts: seq<real>)
    requires ts != []
    ensures IsLeast(l, ts, After(l, ts).value.tokens, After(l, ts).value.last)
    ensures After(l, ts).value.last == ts[|ts| - 1]
  {
    hide Gain, Left, Refilled, IsLeast, After, Answer;
    var n := |ts| - 1;
    var before, t := ts[..n], ts[n];
    assert before + [t] == ts;
    AfterSnoc(l, before, t);
    NoneAfter(l);
    if n > 0 {
      TokensAreLeast(l, before);
      RefilledIsLeast(l, before, t);
      NextIsLeast(l, before, t);
    } else {
      assert before == [];
      FirstIsLeast(l, t);
    }
  }

  /** After the first request of a connection. */
  lemma FirstIsLeast(l: Limits, t: real)
    ensures IsLeast(l, [t], Used(l, None, t).tokens, t)
  {
    hide Gain, CountFrom;
    NoGain(l);
    OwnInstant(l, [], t);
    assert [] + [t] == [t];
    assert Left(l, [t], 0, t) == Used(l, None, t).tokens;
  }

  /** The instant of the last request itself. */
  lemma OwnInstant(l: Limits, ts: seq<real>, t: real)
    ensures var us := ts + [t];
      Left(l, us, |ts|, t) == l.burst as real - (if Answer(l, After(l, ts), t) then 1.0 else 0.0)
  {
    hide Answer, After, CountFrom, Gain;
    NoGain(l);
    CountNext(l, ts, t, |ts|);
  }

  lemma NextIsLeast(l: Limits, ts: seq<real>, t: real)
    requires ts != []
    requires var r := Refilled(l, After(l, ts), t);
      && r <= l.burst as real
      && (forall i :: 0 <= i < |ts| ==> r <= Left(l, ts, i, t))
      && (r == l.burst as real || exists i :: 0 <= i < |ts| && r == Left(l, ts, i, t))
    ensures IsLeast(l, ts + [t], Used(l, After(l, ts), t).tokens, t)
  {
    hide CountFrom, After, Left, Refilled, Gain;
    var us := ts + [t];
    OwnInstant(l, ts, t);
    forall i | 0 <= i < |ts|
      ensures Left(l, us, i, t) == Left(l, ts, i, t) - (if Answer(l, After(l, ts), t) then 1.0 else 0.0)
    {
      LeftNext(l, ts, t, i);
    }
    var r := Refilled(l, After(l, ts), t);
    if r == l.burst as real {
      assert Used(l, After(l, ts), t).tokens == Left(l, us, |ts|, t);
    } else {
      var i :| 0 <= i < |ts| && r == Left(l, ts, i, t);
      assert Used(l, After(l, ts), t).tokens == Left(l, us, i, t);
    }
  }

  /** The window law, by request index. */
  lemma AllowedIffLeft(l: Limits, ts: seq<real>, t: real)
    ensures Answer(l, After(l, ts), t) <==>
      l.burst >= 1 && forall i :: 0 <= i < |ts| ==> Left(l, ts, i, t) >= 1.0
  {
    hide Left, Gain;
    if ts != [] {
      TokensAreLeast(l, ts);
      RefilledIsLeast(l, ts, t);
    }
  }

  lemma {:induction false} SinceIsFrom(l: Limits, ts: seq<real>, i: nat)
    requires Ordered(ts) && i < |ts| && (i > 0 ==> ts[i - 1] < ts[i])
    ensures CountSince(l, ts, ts[i]) == CountFrom(l, ts, i)
    decreases |ts|
  {
    var n := |ts| - 1;
    var before := ts[..n];
    if i < n {
      SinceIsFrom(l, before, i);
    } else {
      NoneSince(l, before, ts[i]);
      assert CountFrom(l, before, i) == 0;
    }
  }

  lemma {:induction false} NoneSince(l: Limits, ts: seq<real>, s: real)
    requires forall k :: 0 <= k < |ts| ==> ts[k] < s
    ensures CountSince(l, ts, s) == 0
  {
    if ts != [] {
      NoneSince(l, ts[..|ts| - 1], s);
    }
  }

  lemma {:induction false} SinceAtLeast(l: Limits, ts: seq<real>, i: nat)
    requires Ordered(ts) && i < |ts|
    ensures CountSince(l, ts, ts[i]) >= CountFrom(l, ts, i)
    decreases |ts|
  {
    var n := |ts| - 1;
    if i < n {
      SinceAtLeast(l, ts[..n], i);
    } else {
      assert CountFrom(l, ts[..n], i) == 0;
    }
  }

  /** The first request at the same instant as request i. */
  lemma {:induction false} FirstAt(ts: seq<real>, i: nat) returns (j: nat)
    requires Ordered(ts) && i < |ts|
    ensures j <= i && ts[j] == ts[i] && (j > 0 ==> ts[j - 1] < ts[j])
  {
    j := i;
    if i > 0 && ts[i - 1] == ts[i] {
      j := FirstAt(ts, i - 1);
    }
  }

  /** Within burst + rate * (t - s) since the instant s, the present request included. */
  predicate WithinSince(l: Limits, ts: seq<real>, s: real, t: real) {
    (CountSince(l, ts, s) + 1) as real <= l.burst as real + (t - s) * l.rate
  }

  lemma WithinIff(l: Limits, ts: seq<real>, s: real, t: real)
    ensures WithinSince(l, ts, s, t) <==> (CountSince(l, ts, s) + 1) as real <= l.burst as real + Gain(l, t - s)
  {
    hide CountSince;
  }

  /**
   * The token bucket is exact: a request at t is allowed iff, for every earlier request instant s and
   * for t itself, the requests allowed in [s, t] including this one stay within burst + rate * (t - s).
   */
  lemma ExactOverRuns(l: Limits, ts: seq<real>, t: real)
    requires Ordered(ts + [t])
    ensures Answer(l, After(l, ts), t) <==>
      WithinSince(l, ts, t, t) && forall i :: 0 <= i < |ts| ==> WithinSince(l, ts, ts[i], t)
  {
    hide CountSince, CountFrom, Answer, After, Gain, WithinSince;
    NoGain(l);
    AllowedIffLeft(l, ts, t);
    EarlierOrdered(ts, t);
    forall s: real
      ensures WithinSince(l, ts, s, t) <==> (CountSince(l, ts, s) + 1) as real <= l.burst as real + Gain(l, t - s)
    {
      WithinIff(l, ts, s, t);
    }
    forall i | 0 <= i < |ts| ensures WithinSince(l, ts, ts[i], t) ==> Left(l, ts, i, t) >= 1.0 {
      SinceAtLeast(l, ts, i);
    }
    forall i | 0 <= i < |ts|
      ensures (forall j :: 0 <= j < |ts| ==> Left(l, ts, j, t) >= 1.0) ==> WithinSince(l, ts, ts[i], t)
    {
      var j := FirstAt(ts, i);
      SinceIsFrom(l, ts, j);
      assert Left(l, ts, j, t) == l.burst as real + Gain(l, t - ts[i]) - CountSince(l, ts, ts[i]) as real;
    }
    if ts != [] && ts[|ts| - 1] == t {
      assert WithinSince(l, ts, ts[|ts| - 1], t) == WithinSince(l, ts, t, t);
      PresentInstant(l, ts, t);
    } else {
      NoneSince(l, ts, t);
    }
  }

  lemma EarlierOrdered(ts: seq<real>, t: real)
    requires Ordered(ts + [t])
    ensures Ordered(ts) && (forall i :: 0 <= i < |ts| ==> ts[i] <= t)
    ensures ts != [] && ts[|ts| - 1] != t ==> forall i :: 0 <= i < |ts| ==> ts[i] < t
  {
    var us := ts + [t];
    forall i, j | 0 <= i <= j < |ts| ensures ts[i] <= ts[j] {
      assert us[i] <= us[j];
    }
    forall i | 0 <= i < |ts| ensures ts[i] <= ts[|ts| - 1] <= t {
      assert us[i] <= us[|ts| - 1] <= us[|ts|];
    }
  }

  /** With earlier requests at the same instant, the present one is bounded by them. */
  lemma PresentInstant(l: Limits, ts: seq<real>, t: real)
    requires ts != [] && ts[|ts| - 1] == t
    ensures Left(l, ts, |ts| - 1, t) >= 1.0 ==> l.burst >= 1
    ensures WithinSince(l, ts, t, t) ==> l.burst >= 1
  {
    hide Gain, CountFrom, CountSince;
    NoGain(l);
  }
}
