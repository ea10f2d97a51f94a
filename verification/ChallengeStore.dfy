/** The WebAuthn challenge store: a map plus an order list that keeps consumed tokens refines a bounded FIFO list. */
module ChallengeStore {
  import opened Collections
  import opened Text

  const TTL := 60    // seconds
  const CAP := 100

  datatype Entry = Entry(data: string, createdAt: int)

  /** One live challenge; the plain list below holds them oldest first. */
  datatype Item = Item(token: string, data: string, at: int)

  // ---------------------------------------------------------------- the simple form: a FIFO list

  function Push(live: seq<Item>, x: Item): seq<Item> {
    (if |live| >= CAP then live[1..] else live) + [x]
  }

  function Without(live: seq<Item>, token: string): seq<Item> {
    if live == [] then []
    else
      var rest := Without(live[1..], token);
      if live[0].token == token then rest else [live[0]] + rest
  }

  function Unexpired(live: seq<Item>, now: int): seq<Item> {
    if live == [] then []
    else
      var rest := Unexpired(live[1..], now);
      if now - live[0].at > TTL then rest else [live[0]] + rest
  }

  function Find(live: seq<Item>, token: string): (r: Option<Item>)
    ensures r.Some? ==> r.value in live && r.value.token == token
    ensures r.None? ==> forall x :: x in live ==> x.token != token
  {
    if live == [] then None
    else if live[0].token == token then Some(live[0])
    else Find(live[1..], token)
  }

  /** What redeeming answers: the data, unless the token is unknown or too old. */
  function Redeem(live: seq<Item>, token: string, now: int): Option<string> {
    var x := Find(live, token);
    if x.Some? && now - x.value.at <= TTL then Some(x.value.data) else None
  }

  // ---------------------------------------------------------------- the stored form

  function ItemOf(entries: map<string, Entry>, token: string): Item
    requires token in entries
  {
    Item(token, entries[token].data, entries[token].createdAt)
  }

  /** The list that the map and the order stand for: consumed tokens in the order are skipped. */
  function Live(entries: map<string, Entry>, order: seq<string>): seq<Item> {
    if order == [] then []
    else
      var rest := Live(entries, order[1..]);
      if order[0] in entries then [ItemOf(entries, order[0])] + rest else rest
  }

  ghost predicate Distinct(order: seq<string>) {
    forall i, j :: 0 <= i < j < |order| ==> order[i] != order[j]
  }

  ghost predicate Fits(entries: map<string, Entry>, order: seq<string>) {
    Distinct(order) && forall t :: t in entries ==> t in order
  }

  lemma {:induction false} LiveConcat(entries: map<string, Entry>, a: seq<string>, b: seq<string>)
    ensures Live(entries, a + b) == Live(entries, a) + Live(entries, b)
  {
    if a == [] {
      assert a + b == b;
    } else {
      LiveConcat(entries, a[1..], b);
      assert (a + b)[1..] == a[1..] + b;
    }
  }

  lemma {:induction false} LiveFrame(one: map<string, Entry>, two: map<string, Entry>, order: seq<string>)
    requires forall t :: t in order ==> (t in one <==> t in two) && (t in one ==> one[t] == two[t])
    ensures Live(one, order) == Live(two, order)
  {
    if order != [] {
      LiveFrame(one, two, order[1..]);
    }
  }

  lemma LiveEmpty(entries: map<string, Entry>)
    ensures Live(entries, []) == []
  {
  }

  lemma LiveOne(entries: map<string, Entry>, token: string)
    requires token in entries
    ensures Live(entries, [token]) == [ItemOf(entries, token)]
  {
    assert [token][1..] == [];
  }

  lemma LiveHead(entries: map<string, Entry>, order: seq<string>)
    requires order != []
    ensures order[0] in entries ==>
              && |Live(entries, order)| > 0
              && Live(entries, order)[1..] == Live(entries, order[1..])
    ensures order[0] !in entries ==> Live(entries, order) == Live(entries, order[1..])
  {
  }

  lemma FitsSnoc(entries: map<string, Entry>, order: seq<string>, token: string, e: Entry)
    requires Fits(entries, order) && token !in order
    ensures Fits(entries[token := e], order + [token]) && |entries[token := e]| == |entries| + 1
  {
    var more := entries[token := e];
    assert more.Keys == entries.Keys + {token};
    assert |more.Keys| == |more| && |entries.Keys| == |entries|;
  }

  lemma MinusFits(entries: map<string, Entry>, order: seq<string>, token: string)
    requires Fits(entries, order)
    ensures Fits(entries - {token}, order) && |entries - {token}| <= |entries|
  {
    var less := entries - {token};
    assert less.Keys == entries.Keys - {token};
    assert |less.Keys| == |less| && |entries.Keys| == |entries|;
  }

  // ---------------------------------------------------------------- what a cleanup pass keeps

  function Kept(entries: map<string, Entry>, seen: seq<string>, now: int): map<string, Entry> {
    map t | t in entries && !(t in seen && now - entries[t].createdAt > TTL) :: entries[t]
  }

  function KeptOrder(entries: map<string, Entry>, seen: seq<string>, now: int): seq<string> {
    if seen == [] then []
    else
      var rest := KeptOrder(entries, seen[1..], now);
      if seen[0] in entries && now - entries[seen[0]].createdAt <= TTL then [seen[0]] + rest else rest
  }

  lemma {:induction false} KeptOrderSnoc(entries: map<string, Entry>, seen: seq<string>, t: string, now: int)
    ensures KeptOrder(entries, seen + [t], now) ==
            KeptOrder(entries, seen, now) + if t in entries && now - entries[t].createdAt <= TTL then [t] else []
  {
    if seen == [] {
      assert [t][1..] == [] && [] + [t] == [t];
    } else {
      KeptOrderSnoc(entries, seen[1..], t, now);
      assert (seen + [t])[1..] == seen[1..] + [t];
    }
  }

  lemma NothingKept(entries: map<string, Entry>, now: int)
    ensures KeptOrder(entries, [], now) == []
  {
  }

  lemma {:induction false} KeptOrderIn(entries: map<string, Entry>, seen: seq<string>, now: int)
    requires Distinct(seen)
    ensures Distinct(KeptOrder(entries, seen, now))
    ensures forall t :: t in KeptOrder(entries, seen, now) <==>
              t in seen && t in entries && now - entries[t].createdAt <= TTL
  {
    if seen != [] {
      KeptOrderIn(entries, seen[1..], now);
    }
  }

  lemma {:induction false} KeptIsUnexpired(entries: map<string, Entry>, order: seq<string>, now: int)
    ensures Live(entries, KeptOrder(entries, order, now)) == Unexpired(Live(entries, order), now)
  {
    if order != [] {
      var rest := order[1..];
      KeptIsUnexpired(entries, rest, now);
      if order[0] in entries {
        var x := ItemOf(entries, order[0]);
        assert ([x] + Live(entries, rest))[1..] == Live(entries, rest);
        assert ([order[0]] + KeptOrder(entries, rest, now))[1..] == KeptOrder(entries, rest, now);
      }
    }
  }

  lemma CleanupResult(entries: map<string, Entry>, order: seq<string>, now: int)
    requires Fits(entries, order)
    ensures var e, o := Kept(entries, order, now), KeptOrder(entries, order, now);
      && Fits(e, o) && |e| <= |entries| && Live(e, o) == Unexpired(Live(entries, order), now)
      && (forall t :: t in o <==> t in e) && forall t :: t in o ==> t in order
  {
    var e, o := Kept(entries, order, now), KeptOrder(entries, order, now);
    KeptOrderIn(entries, order, now);
    LiveFrame(e, entries, o);
    KeptIsUnexpired(entries, order, now);
    assert e.Keys <= entries.Keys;
    SubsetSize(e.Keys, entries.Keys);
    assert |e.Keys| == |e| && |entries.Keys| == |entries|;
  }

  lemma {:induction false} LiveMinus(entries: map<string, Entry>, order: seq<string>, token: string)
    ensures Live(entries - {token}, order) == Without(Live(entries, order), token)
  {
    if order != [] {
      LiveMinus(entries, order[1..], token);
      var rest := Live(entries, order[1..]);
      if order[0] in entries {
        var x := ItemOf(entries, order[0]);
        assert ([x] + rest)[1..] == rest;
      }
    }
  }

  /** Dropping the head of the order, live or consumed, leaves the rest of the list alone. */
  lemma DropHead(entries: map<string, Entry>, order: seq<string>)
    requires order != [] && Fits(entries, order)
    ensures Fits(entries - {order[0]}, order[1..])
    ensures Live(entries - {order[0]}, order[1..]) == Live(entries, order[1..])
    ensures order[0] in entries ==> |entries - {order[0]}| == |entries| - 1
    ensures order[0] !in entries ==> entries - {order[0]} == entries
  {
    hide Live, Fits;
    FitsTail(entries, order);
    LiveFrame(entries - {order[0]}, entries, order[1..]);
    MinusOne(entries, order[0]);
  }

  lemma FitsTail(entries: map<string, Entry>, order: seq<string>)
    requires order != [] && Fits(entries, order)
    ensures Fits(entries - {order[0]}, order[1..]) && order[0] !in order[1..]
  {
    var rest := order[1..];
    forall t | t in entries && t != order[0] ensures t in rest {
      var i :| 0 <= i < |order| && order[i] == t;
      assert rest[i - 1] == t;
    }
    forall i, j | 0 <= i < j < |rest| ensures rest[i] != rest[j] {
      assert rest[i] == order[i + 1] && rest[j] == order[j + 1];
    }
  }

  lemma MinusOne(entries: map<string, Entry>, token: string)
    ensures token in entries ==> |entries - {token}| == |entries| - 1
    ensures token !in entries ==> entries - {token} == entries
  {
    var less := entries - {token};
    if token in entries {
      assert less.Keys == entries.Keys - {token};
      assert |less.Keys| == |less| && |entries.Keys| == |entries|;
    }
  }

  /** Every entry is in the list exactly once, so the map's size is the list's length. */
  lemma {:induction false} LiveCount(entries: map<string, Entry>, order: seq<string>)
    requires Fits(entries, order)
    ensures |Live(entries, order)| == |entries|
  {
    if order == [] {
      assert entries == map[];
    } else {
      DropHead(entries, order);
      LiveCount(entries - {order[0]}, order[1..]);
    }
  }

  lemma {:induction false} LiveFind(entries: map<string, Entry>, order: seq<string>, token: string)
    ensures Find(Live(entries, order), token) ==
            if token in order && token in entries then Some(ItemOf(entries, token)) else None
  {
    if order != [] {
      LiveFind(entries, order[1..], token);
      var rest := Live(entries, order[1..]);
      if order[0] in entries {
        var x := ItemOf(entries, order[0]);
        assert ([x] + rest)[1..] == rest;
      }
    }
  }

  class ChallengeStore {
    var entries: map<string, Entry>
    var order: seq<string>

    ghost predicate Valid()
      reads this
    {
      Fits(entries, order) && |entries| <= CAP
    }

    ghost function View(): seq<Item>
      reads this
    {
      Live(entries, order)
    }

    constructor ()
      ensures Valid() && View() == [] && order == []
    {
      entries, order := map[], [];
    }

    /** `token` is the fresh random token; `order` may still name consumed ones. */
    method Store(data: string, token: string, now: int)
      requires Valid() && token !in order
      modifies this
      ensures Valid() && View() == Push(old(View()), Item(token, data, now))
      ensures forall t :: t in order ==> t in old(order) || t == token
    {
      hide Live;
      LiveCount(entries, order);
      ghost var before := View();
      while |entries| >= CAP && |order| > 0
        invariant Valid() && token !in order
        invariant forall t :: t in order ==> t in old(order)
        invariant |entries| == CAP ==> View() == before
        invariant |entries| < CAP ==> View() == if |before| >= CAP then before[1..] else before
        decreases |order|
      {
        LiveCount(entries, order);
        LiveHead(entries, order);
        DropHead(entries, order);
        var oldest := order[0];
        order := order[1..];
        entries := entries - {oldest};
      }
      if order == [] {
        LiveCount(entries, order);
        LiveEmpty(entries);
      }
      ghost var more := entries[token := Entry(data, now)];
      LiveFrame(entries, more, order);
      LiveOne(more, token);
      LiveConcat(more, order, [token]);
      FitsSnoc(entries, order, token, Entry(data, now));
      entries := entries[token := Entry(data, now)];
      order := order + [token];
    }

    method Get(token: string, now: int) returns (r: Option<string>)
      requires Valid()
      modifies this`entries
      ensures Valid() && View() == Without(old(View()), token)
      ensures r == Redeem(old(View()), token, now)
    {
      LiveFind(entries, order, token);
      LiveMinus(entries, order, token);
      MinusFits(entries, order, token);
      r := if token in entries && now - entries[token].createdAt <= TTL then Some(entries[token].data) else None;
      entries := entries - {token};
    }

    /** One tick of the cleanup goroutine; it also forgets consumed tokens. */
    method Cleanup(now: int)
      requires Valid()
      modifies this
      ensures Valid() && View() == Unexpired(old(View()), now)
      ensures forall t :: t in order <==> t in entries
      ensures forall t :: t in order ==> t in old(order)
    {
      hide Live, Unexpired, Fits, KeptOrder;
      ghost var all, listed := entries, order;
      var newOrder := [];
      NothingKept(all, now);
      assert Kept(all, [], now) == all;
      for i := 0 to |order|
        invariant order == listed && entries == Kept(all, listed[..i], now)
        invariant newOrder == KeptOrder(all, listed[..i], now)
      {
        assert listed[..i + 1] == listed[..i] + [listed[i]];
        KeptOrderSnoc(all, listed[..i], listed[i], now);
        var token := order[i];
        if token in entries {
          if now - entries[token].createdAt > TTL {
            entries := entries - {token};
          } else {
            newOrder := newOrder + [token];
          }
        }
        assert entries == Kept(all, listed[..i + 1], now);
      }
      assert listed[..|listed|] == listed;
      CleanupResult(all, listed, now);
      order := newOrder;
    }
  }
}
