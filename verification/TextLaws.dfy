/** Laws of trimming and splitting. */
module TextLaws {
  import opened Text

  lemma {:induction false} TrimRightConcat(a: string, b: string)
    ensures TrimRight(a + b) == if TrimRight(b) != "" then a + TrimRight(b) else TrimRight(a)
  {
    if b == "" {
      assert a + b == a;
    } else {
      var n := |b| - 1;
      assert (a + b)[|a + b| - 1] == b[n];
      assert (a + b)[..|a + b| - 1] == a + b[..n];
      TrimRightConcat(a, b[..n]);
    }
  }

  lemma {:induction false} TrimsCommute(s: string)
    ensures TrimLeft(TrimRight(s)) == TrimRight(TrimLeft(s))
  {
    if s != "" {
      var rest := s[1..];
      assert s == [s[0]] + rest;
      TrimRightConcat([s[0]], rest);
      if IsSpace(s[0]) {
        TrimsCommute(rest);
        assert TrimRight([s[0]]) == "" by { assert [s[0]][..0] == ""; }
        if TrimRight(rest) != "" {
          assert ([s[0]] + TrimRight(rest))[1..] == TrimRight(rest);
        }
      }
    }
  }

  /** Trimming the right end first makes no difference. */
  lemma TrimAfterRight(s: string)
    ensures TrimSpace(TrimRight(s)) == TrimSpace(s)
  {
    hide TrimLeft, TrimRight;
    TrimsCommute(s);
    TrimRightTwice(TrimLeft(s));
  }

  lemma TrimRightTwice(s: string)
    ensures TrimRight(TrimRight(s)) == TrimRight(s)
  {
  }

  lemma {:induction false} SplitEqAt(a: string, b: string)
    requires '=' !in a
    ensures SplitEq(a + "=" + b) == Some((a, b))
  {
    if a == "" {
      assert a + "=" + b == "=" + b;
    } else {
      assert (a + "=" + b)[1..] == a[1..] + "=" + b;
      SplitEqAt(a[1..], b);
      assert [a[0]] + a[1..] == a;
    }
  }

  lemma {:induction false} SplitAt(a: string, rest: string, sep: char)
    requires sep !in a
    ensures Split(a + [sep] + rest, sep) == [a] + Split(rest, sep)
  {
    if a == "" {
      assert a + [sep] + rest == [sep] + rest;
    } else {
      assert (a + [sep] + rest)[1..] == a[1..] + [sep] + rest;
      SplitAt(a[1..], rest, sep);
      assert [a[0]] + a[1..] == a;
      assert ([a[1..]] + Split(rest, sep))[1..] == Split(rest, sep);
    }
  }

  lemma {:induction false} SplitNone(s: string, sep: char)
    requires sep !in s
    ensures Split(s, sep) == [s]
  {
    if s != "" {
      SplitNone(s[1..], sep);
      assert [s[0]] + s[1..] == s;
    }
  }

  /** The pieces of a split hold no separator. */
  lemma {:induction false} SplitPieces(s: string, sep: char)
    ensures forall l :: l in Split(s, sep) ==> sep !in l
  {
    if s != "" {
      SplitPieces(s[1..], sep);
    }
  }

  lemma {:induction false} DecimalDigits(n: nat)
    ensures forall c :: c in Decimal(n) ==> '0' <= c <= '9'
  {
    if n >= 10 {
      DecimalDigits(n / 10);
    }
  }

  // ---------------------------------------------------------------- what trimming and splitting leave

  predicate Blank(s: string) {
    forall c :: c in s ==> IsSpace(c)
  }

  lemma {:induction false} TrimLeftIs(s: string)
    ensures exists a :: Blank(a) && s == a + TrimLeft(s)
    ensures TrimLeft(s) != "" ==> !IsSpace(TrimLeft(s)[0])
  {
    if s != "" && IsSpace(s[0]) {
      TrimLeftIs(s[1..]);
      var a :| Blank(a) && s[1..] == a + TrimLeft(s[1..]);
      assert Blank([s[0]] + a) && s == [s[0]] + a + TrimLeft(s);
    } else {
      assert Blank("") && s == "" + TrimLeft(s);
    }
  }

  lemma {:induction false} TrimRightIs(s: string)
    ensures exists b :: Blank(b) && s == TrimRight(s) + b
    ensures TrimRight(s) != "" ==> !IsSpace(TrimRight(s)[|TrimRight(s)| - 1]) && TrimRight(s)[0] == s[0]
  {
    if s != "" && IsSpace(s[|s| - 1]) {
      var n := |s| - 1;
      TrimRightIs(s[..n]);
      var b :| Blank(b) && s[..n] == TrimRight(s[..n]) + b;
      assert Blank(b + [s[n]]) && s == TrimRight(s) + (b + [s[n]]);
    } else {
      assert Blank("") && s == TrimRight(s) + "";
    }
  }

  /** Blanks go at both ends, nothing else does, and none is left at an end. */
  lemma TrimSpaceIs(s: string)
    ensures exists a, b :: Blank(a) && Blank(b) && s == a + TrimSpace(s) + b
    ensures var t := TrimSpace(s); t != "" ==> !IsSpace(t[0]) && !IsSpace(t[|t| - 1])
  {
    hide TrimLeft, TrimRight, Blank;
    TrimLeftIs(s);
    TrimRightIs(TrimLeft(s));
    var a :| Blank(a) && s == a + TrimLeft(s);
    var b :| Blank(b) && TrimLeft(s) == TrimSpace(s) + b;
    assert s == a + TrimSpace(s) + b;
  }

  lemma TrimLeading(s: string)
    ensures TrimSpace(" " + s) == TrimSpace(s)
  {
    assert (" " + s)[1..] == s;
  }

  // ---------------------------------------------------------------- comma-separated lists

  lemma {:induction false} TrimmedConcat(a: seq<string>, b: seq<string>)
    ensures Trimmed(a + b) == Trimmed(a) + Trimmed(b)
  {
    hide TrimSpace;
    if b == [] {
      assert a + b == a && Trimmed(a) + [] == Trimmed(a);
    } else {
      var n := |b| - 1;
      assert (a + b)[..|a| + n] == a + b[..n];
      TrimmedConcat(a, b[..n]);
    }
  }

  lemma TrimmedOne(s: string)
    ensures Trimmed([s]) == if TrimSpace(s) == "" then [] else [TrimSpace(s)]
  {
    hide TrimSpace;
    assert [s][..0] == [];
  }

  /** A text without a comma is one field, if there is more to it than blanks. */
  lemma FieldsOne(a: string)
    requires ',' !in a
    ensures Fields(a) == if TrimSpace(a) == "" then [] else [TrimSpace(a)]
  {
    hide Split, TrimSpace, Trimmed;
    SplitNone(a, ',');
    TrimmedOne(a);
  }

  /** A comma ends a field. */
  lemma FieldsConcat(a: string, b: string)
    requires ',' !in a
    ensures Fields(a + "," + b) == Fields(a) + Fields(b)
  {
    hide Split, TrimSpace, Trimmed;
    assert a + "," + b == a + [','] + b;
    SplitAt(a, b, ',');
    SplitNone(a, ',');
    TrimmedConcat([a], Split(b, ','));
  }

  /** The items of a list with commas, and possibly a blank after each comma, in between. */
  function Joined(items: seq<string>, gap: string): string {
    if items == [] then ""
    else if |items| == 1 then items[0]
    else items[0] + "," + gap + Joined(items[1..], gap)
  }

  predicate IsItem(s: string) {
    s != "" && ',' !in s && TrimSpace(s) == s
  }

  /** The fields of such a list are its items. */
  lemma {:induction false} FieldsOfList(items: seq<string>, gap: string)
    requires gap in {"", " "} && forall s :: s in items ==> IsItem(s)
    ensures Fields(Joined(items, gap)) == items
    ensures Fields(gap + Joined(items, gap)) == items
  {
    hide TrimSpace, Fields;
    if items == [] {
      assert gap + "" == gap;
      FieldsOne("");
      FieldsOne(gap);
      TrimBlank();
    } else {
      assert items[0] in items;
      var first, rest := items[0], items[1..];
      TrimLeading(first);
      assert "" + first == first;
      FieldsOne(first);
      FieldsOne(gap + first);
      assert items == [first] + rest;
      if rest != [] {
        assert forall s :: s in rest ==> s in items;
        FieldsOfList(rest, gap);
        var tail := gap + Joined(rest, gap);
        assert Joined(items, gap) == first + "," + tail;
        assert gap + Joined(items, gap) == (gap + first) + "," + tail;
        FieldsConcat(first, tail);
        FieldsConcat(gap + first, tail);
      } else {
        assert Joined(items, gap) == first;
      }
    }
  }

  lemma TrimBlank()
    ensures TrimSpace("") == "" && TrimSpace(" ") == ""
  {
  }

  // ---------------------------------------------------------------- reading decimals

  /** The digits read back as a number. */
  function ReadDecimal(s: string): int {
    if s == "" then 0 else 10 * ReadDecimal(s[..|s| - 1]) + (s[|s| - 1] as int - '0' as int)
  }

  lemma {:induction false} DecimalReads(n: nat)
    ensures Decimal(n) != "" && ReadDecimal(Decimal(n)) == n
  {
    var s := Decimal(n);
    DigitIs(n % 10);
    if n >= 10 {
      DecimalReads(n / 10);
      assert s[..|s| - 1] == Decimal(n / 10);
    } else {
      assert s[..0] == "";
    }
  }

  lemma DigitIs(d: nat)
    requires d < 10
    ensures Digit(d) as int - '0' as int == d
  {
  }
}
