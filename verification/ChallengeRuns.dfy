/** What whole runs of the challenge store guarantee, stated on the FIFO list it refines. */
module ChallengeRuns {
  import opened Text
  import opened ChallengeStore

  datatype Op =
    | Store(item: Item)
    | Get(token: string, when: int)
    | Clean(when: int)

  function Time(op: Op): int {
    if op.Store? then op.item.at else op.when
  }

  function After(ops: seq<Op>): seq<Item> {
    if ops == [] then []
    else
      var live := After(ops[..|ops| - 1]);
      match ops[|ops| - 1]
      case Store(x) => Push(live, x)
      case Get(token, _) => Without(live, token)
      case Clean(now) => Unexpired(live, now)
  }

  /** The answer of the Get at position i. */
  function Answer(ops: seq<Op>, i: nat): Option<string>
    requires i < |ops| && ops[i].Get?
  {
    Redeem(After(ops[..i]), ops[i].token, ops[i].when)
  }

  ghost predicate Clocked(ops: seq<Op>) {
    forall i, j :: 0 <= i <= j < |ops| ==> Time(ops[i]) <= Time(ops[j])
  }

  /** Every stored token is new. */
  ghost predicate FreshTokens(ops: seq<Op>) {
    forall i, j :: 0 <= i < j < |ops| && ops[i].Store? && ops[j].Store? ==> ops[i].item.token != ops[j].item.token
  }

  ghost predicate NoGet(ops: seq<Op>, token: string, lo: nat, hi: nat) {
    forall m :: lo < m < hi && m < |ops| && ops[m].Get? ==> ops[m].token != token
  }

  ghost predicate StoredAt(ops: seq<Op>, j: nat, x: Item, hi: nat) {
    j < hi <= |ops| && ops[j] == Store(x) && NoGet(ops, x.token, j, hi)
  }

  lemma {:induction false} WithoutIn(live: seq<Item>, token: string, x: Item)
    requires x in Without(live, token)
    ensures x in live && x.token != token
  {
    if x != live[0] || live[0].token == token {
      WithoutIn(live[1..], token, x);
    }
  }

  lemma {:induction false} UnexpiredIn(live: seq<Item>, now: int, x: Item)
    requires x in Unexpired(live, now)
    ensures x in live
  {
    if x != live[0] {
      UnexpiredIn(live[1..], now, x);
    }
  }

  /** Whatever is live was stored and not asked for since. */
  lemma {:induction false} LiveWasStored(ops: seq<Op>, m: nat, x: Item) returns (j: nat)
    requires m <= |ops| && x in After(ops[..m])
    ensures StoredAt(ops, j, x, m)
  {
    var n := m - 1;
    assert ops[..m][..n] == ops[..n];
    var live := After(ops[..n]);
    if ops[n] == Store(x) {
      j := n;
    } else {
      if ops[n].Get? {
        WithoutIn(live, ops[n].token, x);
      } else if ops[n].Clean? {
        UnexpiredIn(live, ops[n].when, x);
      }
      j := LiveWasStored(ops, n, x);
    }
  }

  /** A challenge is handed out only if it was stored, has not outlived its TTL, and was never asked for before. */
  lemma RedeemedWasStored(ops: seq<Op>, i: nat) returns (j: nat, x: Item)
    requires i < |ops| && ops[i].Get? && Answer(ops, i).Some?
    ensures x.token == ops[i].token && x.data == Answer(ops, i).value
    ensures StoredAt(ops, j, x, i) && ops[i].when - x.at <= 60
  {
    x := Find(After(ops[..i]), ops[i].token).value;
    j := LiveWasStored(ops, i, x);
  }

  /** A Get that succeeds after another one was given a challenge stored after that other one. */
  lemma RedeemedIsNewer(ops: seq<Op>, i: nat, k: nat) returns (j: nat, x: Item)
    requires i < k < |ops| && ops[i].Get? && ops[k].Get? && ops[i].token == ops[k].token
    requires Answer(ops, k).Some?
    ensures x.token == ops[k].token && StoredAt(ops, j, x, k) && i < j
  {
    j, x := RedeemedWasStored(ops, k);
    assert !NoGet(ops, x.token, j, k) || i <= j;
  }

  /** One-time use: over any run with fresh tokens, no token is redeemed twice. */
  lemma RedeemedOnce(ops: seq<Op>, i: nat, k: nat)
    requires FreshTokens(ops) && i < k < |ops| && ops[i].Get? && ops[k].Get? && ops[i].token == ops[k].token
    ensures Answer(ops, i).None? || Answer(ops, k).None?
  {
    if Answer(ops, i).Some? && Answer(ops, k).Some? {
      var j, x := RedeemedWasStored(ops, i);
      var j', x' := RedeemedIsNewer(ops, i, k);
      assert false;
    }
  }

  /** Over any run at most 100 challenges are live; right after a cleanup none of them has outlived its TTL. */
  lemma {:induction false} NeverOverCap(ops: seq<Op>)
    ensures |After(ops)| <= 100
    ensures ops != [] && ops[|ops| - 1].Clean? ==> forall x :: x in After(ops) ==> ops[|ops| - 1].when - x.at <= 60
  {
    if ops != [] {
      var n := |ops| - 1;
      var live := After(ops[..n]);
      NeverOverCap(ops[..n]);
      match ops[n] {
        case Store(_) =>
        case Get(token, _) => WithoutShorter(live, token);
        case Clean(now) => UnexpiredIff(live, now);
      }
    }
  }

  lemma {:induction false} WithoutShorter(live: seq<Item>, token: string)
    ensures |Without(live, token)| <= |live|
  {
    if live != [] {
      WithoutShorter(live[1..], token);
    }
  }

  /** A cleanup keeps exactly the challenges within their TTL. */
  lemma {:induction false} UnexpiredIff(live: seq<Item>, now: int)
    ensures forall x :: x in Unexpired(live, now) <==> x in live && now - x.at <= 60
    ensures |Unexpired(live, now)| <= |live|
  {
    if live != [] {
      UnexpiredIff(live[1..], now);
      assert live == [live[0]] + live[1..];
    }
  }

  // ---------------------------------------------------------------- the converse

  function Stores(ops: seq<Op>, lo: nat, hi: nat): nat
    requires lo <= hi <= |ops|
    decreases hi
  {
    if lo == hi then 0 else Stores(ops, lo, hi - 1) + if ops[hi - 1].Store? then 1 else 0
  }

  lemma {:induction false} WithoutAround(a: seq<Item>, x: Item, b: seq<Item>, token: string)
    requires x.token != token
    ensures Without(a + [x] + b, token) == Without(a, token) + [x] + Without(b, token)
    ensures |Without(b, token)| <= |b|
  {
    WithoutShrinks(b, token);
    if a == [] {
      assert [] + [x] + b == [x] + b && ([x] + b)[1..] == b;
      assert Without([], token) + [x] + Without(b, token) == [x] + Without(b, token);
    } else {
      WithoutAround(a[1..], x, b, token);
      assert (a + [x] + b)[1..] == a[1..] + [x] + b;
      var rest := Without(a[1..], token);
      assert [a[0]] + (rest + [x] + Without(b, token)) == [a[0]] + rest + [x] + Without(b, token);
    }
  }

  lemma {:induction false} WithoutShrinks(b: seq<Item>, token: string)
    ensures |Without(b, token)| <= |b|
  {
    if b != [] {
      WithoutShrinks(b[1..], token);
    }
  }

  lemma {:induction false} UnexpiredAround(a: seq<Item>, x: Item, b: seq<Item>, now: int)
    requires now - x.at <= TTL
    ensures Unexpired(a + [x] + b, now) == Unexpired(a, now) + [x] + Unexpired(b, now)
    ensures |Unexpired(b, now)| <= |b|
  {
    UnexpiredShrinks(b, now);
    if a == [] {
      assert [] + [x] + b == [x] + b && ([x] + b)[1..] == b;
      assert Unexpired([], now) + [x] + Unexpired(b, now) == [x] + Unexpired(b, now);
    } else {
      UnexpiredAround(a[1..], x, b, now);
      assert (a + [x] + b)[1..] == a[1..] + [x] + b;
      var rest := Unexpired(a[1..], now);
      assert [a[0]] + (rest + [x] + Unexpired(b, now)) == [a[0]] + rest + [x] + Unexpired(b, now);
    }
  }

  lemma {:induction false} UnexpiredShrinks(b: seq<Item>, now: int)
    ensures |Unexpired(b, now)| <= |b|
  {
    if b != [] {
      UnexpiredShrinks(b[1..], now);
    }
  }

  lemma PushAround(a: seq<Item>, x: Item, b: seq<Item>, y: Item) returns (a': seq<Item>)
    requires |b| < CAP - 1
    ensures Push(a + [x] + b, y) == a' + [x] + (b + [y])
  {
    if |a + [x] + b| >= CAP {
      a' := a[1..];
      assert (a + [x] + b)[1..] + [y] == a' + [x] + (b + [y]);
    } else {
      a' := a;
      assert a + [x] + b + [y] == a + [x] + (b + [y]);
    }
  }

  /** A challenge stays in the list, with no more behind it than were stored since. */
  lemma {:induction false} StaysLive(ops: seq<Op>, j: nat, x: Item, m: nat, now: int)
    returns (a: seq<Item>, b: seq<Item>)
    requires Clocked(ops) && StoredAt(ops, j, x, m) && Stores(ops, j + 1, m) < CAP
    requires now - x.at <= TTL && forall i :: 0 <= i < m ==> Time(ops[i]) <= now
    ensures After(ops[..m]) == a + [x] + b && |b| <= Stores(ops, j + 1, m)
    decreases m
  {
    hide Without, Unexpired, Push, Clocked;
    var n := m - 1;
    assert ops[..m][..n] == ops[..n];
    if n == j {
      var live := After(ops[..n]);
      a, b := PushLast(live, x), [];
      assert a + [x] + b == a + [x];
    } else {
      a, b := StaysLive(ops, j, x, n, now);
      match ops[n] {
        case Store(y) =>
          a := PushAround(a, x, b, y);
          b := b + [y];
        case Get(token, _) =>
          WithoutAround(a, x, b, token);
          a, b := Without(a, token), Without(b, token);
        case Clean(t) =>
          assert Time(ops[n]) == t;
          UnexpiredAround(a, x, b, t);
          a, b := Unexpired(a, t), Unexpired(b, t);
      }
    }
  }

  function PushLast(live: seq<Item>, x: Item): (a: seq<Item>)
    ensures Push(live, x) == a + [x]
  {
    if |live| >= CAP then live[1..] else live
  }

  /**
   * The converse: a challenge stored within its TTL, not asked for since, and followed by fewer than
   * 100 other challenges is handed out, with its own data.
   */
  lemma StoredIsRedeemed(ops: seq<Op>, j: nat, x: Item, i: nat)
    requires Clocked(ops) && FreshTokens(ops)
    requires i < |ops| && ops[i].Get? && ops[i].token == x.token && StoredAt(ops, j, x, i)
    requires ops[i].when - x.at <= 60 && Stores(ops, j + 1, i) < 100
    ensures Answer(ops, i) == Some(x.data)
  {
    var now := ops[i].when;
    forall m | 0 <= m < i ensures Time(ops[m]) <= now {
      assert Time(ops[m]) <= Time(ops[i]);
    }
    var a, b := StaysLive(ops, j, x, i, now);
    var live := After(ops[..i]);
    assert live[|a|] == x;
    var y := Find(live, x.token).value;
    var j' := LiveWasStored(ops, i, y);
    assert j' == j;
  }
}
