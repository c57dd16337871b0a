/**
 * The offline queue's items: `"<millis>|<type>"` strings kept in a string
 * set, split on `|` and sorted by the text before the first `|`.
 */
module QueueFormat {
  import opened Wrappers
  import opened Numbers

  /**
   * `"${System.currentTimeMillis()}|$type"`: the key is the timestamp
   * text and the posted type is the type up to its first `|`.
   */
  function Encode(millis: int, tag: string): (r: string)
    ensures '|' in r
    ensures Key(r) == DecimalString(millis)
    ensures TypeOf(r) == Key(tag)
  {
    var r := DecimalString(millis) + "|" + tag;
    assert r[|DecimalString(millis)|] == '|';
    PiecesAfterSeparator(DecimalString(millis), tag);
    PiecesSplit(r);
    r
  }

  /** The pieces joined back with `|` between them. */
  function Join(pieces: seq<string>): string
    requires |pieces| > 0
  {
    if |pieces| == 1 then pieces[0] else pieces[0] + "|" + Join(pieces[1..])
  }

  /**
   * Kotlin `split("|")`: the text between separators, empty pieces
   * (leading, trailing, adjacent separators) kept.
   */
  function Pieces(s: string): (r: seq<string>)
    ensures |r| > 0
  {
    if s == [] then [""]
    else
      var rest := Pieces(s[1..]);
      if s[0] == '|' then [""] + rest
      else [[s[0]] + rest[0]] + rest[1..]
  }

  /**
   * Joining the pieces gives the text back, no piece holds a separator,
   * and there is more than one piece exactly when the text holds one.
   */
  lemma {:induction false} PiecesSplit(s: string)
    ensures forall i :: 0 <= i < |Pieces(s)| ==> '|' !in Pieces(s)[i]
    ensures Join(Pieces(s)) == s
    ensures |Pieces(s)| > 1 <==> '|' in s
  {
    if s != [] {
      var rest := Pieces(s[1..]);
      PiecesSplit(s[1..]);
      assert s == [s[0]] + s[1..];
      assert '|' in s <==> s[0] == '|' || '|' in s[1..];
      if s[0] == '|' {
        assert Pieces(s)[1..] == rest;
      } else {
        var r := Pieces(s);
        assert r[1..] == rest[1..];
        assert r[0] == [s[0]] + rest[0];
        if |rest| > 1 {
          assert Join(r) == r[0] + "|" + Join(rest[1..]);
          assert Join(rest) == rest[0] + "|" + Join(rest[1..]);
        }
      }
    }
  }

  lemma {:induction false} PiecesWithoutSeparator(x: string)
    requires '|' !in x
    ensures Pieces(x) == [x]
  {
    if x != [] {
      PiecesWithoutSeparator(x[1..]);
      assert [x[0]] + x[1..] == x;
    }
  }

  lemma {:induction false} PiecesAfterSeparator(x: string, y: string)
    requires '|' !in x
    ensures Pieces(x + "|" + y) == [x] + Pieces(y)
  {
    var s := x + "|" + y;
    if x == [] {
      assert s[0] == '|' && s[1..] == y;
    } else {
      assert s[0] == x[0] && s[1..] == x[1..] + "|" + y;
      PiecesAfterSeparator(x[1..], y);
      assert [x[0]] + x[1..] == x;
    }
  }

  /** Splitting what was joined gives the pieces back, when no piece holds a separator. */
  lemma {:induction false} PiecesOfJoin(pieces: seq<string>)
    requires |pieces| > 0 && forall i :: 0 <= i < |pieces| ==> '|' !in pieces[i]
    ensures Pieces(Join(pieces)) == pieces
  {
    if |pieces| == 1 {
      PiecesWithoutSeparator(pieces[0]);
    } else {
      PiecesOfJoin(pieces[1..]);
      PiecesAfterSeparator(pieces[0], Join(pieces[1..]));
      assert [pieces[0]] + pieces[1..] == pieces;
    }
  }

  /** The sort key `split("|")[0]`: the text before the first `|` (all of it when there is none). */
  function Key(item: string): (r: string)
    ensures '|' !in r && r <= item
    ensures |r| < |item| ==> item[|r|] == '|'
  {
    PiecesHead(item);
    Pieces(item)[0]
  }

  /**
   * The type posted for an item, `split("|")[1]` (an item without `|`
   * would throw): the text between the first `|` and the next one.
   */
  function TypeOf(item: string): (r: string)
    requires '|' in item
    ensures |Key(item)| < |item|
    ensures r == Key(item[|Key(item)| + 1..])
  {
    PiecesSplit(item);
    PiecesHead(item);
    var p := Pieces(item);
    assert p[1] == p[1..][0];
    p[1]
  }

  /**
   * The first piece is the longest separator-free prefix; when a
   * separator follows it, the remaining pieces are those of the text
   * after that separator.
   */
  lemma {:induction false} PiecesHead(s: string)
    ensures var p := Pieces(s)[0];
      && '|' !in p && p <= s
      && (|p| < |s| ==> s[|p|] == '|' && Pieces(s)[1..] == Pieces(s[|p| + 1..]))
      && (|p| == |s| ==> |Pieces(s)| == 1)
  {
    if s != [] && s[0] != '|' {
      var rest := Pieces(s[1..]);
      PiecesHead(s[1..]);
      var q := rest[0];
      var p := Pieces(s)[0];
      assert p == [s[0]] + q;
      assert Pieces(s)[1..] == rest[1..];
      if |q| < |s[1..]| {
        assert s[1..][|q| + 1..] == s[|p| + 1..];
      }
    }
  }

  /**
   * An enqueued item splits back into its timestamp text and its type; the
   * key reads back as the timestamp.
   */
  lemma EncodeRoundTrip(millis: int, tag: string)
    requires '|' !in tag
    ensures TypeOf(Encode(millis, tag)) == tag
    ensures InLong(millis) ==> ParseLong(Key(Encode(millis, tag))) == Some(millis)
  {
    if InLong(millis) {
      ParseDecimalRoundTrip(millis);
    }
  }

  /**
   * Keys of enqueued items compare like their timestamps when the two
   * timestamps have the same number of digits.
   */
  lemma KeyOrderIsTimeOrder(a: nat, b: nat, tagA: string, tagB: string)
    requires '|' !in tagA && '|' !in tagB
    requires |DecimalString(a)| == |DecimalString(b)|
    ensures LexLeq(Key(Encode(a, tagA)), Key(Encode(b, tagB))) <==> a <= b
  {
    EncodeRoundTrip(a, tagA);
    EncodeRoundTrip(b, tagB);
    TimestampOrder(a, b);
  }

  /** Items in ascending key order (`String.compareTo` on the keys). */
  predicate SortedByKey(q: seq<string>) {
    forall i, j :: 0 <= i < j < |q| ==> LexLeq(Key(q[i]), Key(q[j]))
  }

  /** Puts `x` after every item whose key is not above its own. */
  function InsertByKey(x: string, q: seq<string>): seq<string> {
    if q == [] then [x]
    else if LexLeq(Key(q[0]), Key(x)) then [q[0]] + InsertByKey(x, q[1..])
    else [x] + q
  }

  lemma {:induction false} InsertByKeyPermutes(x: string, q: seq<string>)
    ensures multiset(InsertByKey(x, q)) == multiset(q) + multiset{x}
  {
    if q != [] && LexLeq(Key(q[0]), Key(x)) {
      InsertByKeyPermutes(x, q[1..]);
      assert q == [q[0]] + q[1..];
    }
  }

  lemma {:induction false} InsertByKeySorted(x: string, q: seq<string>)
    requires SortedByKey(q)
    ensures SortedByKey(InsertByKey(x, q))
  {
    if q == [] {
    } else if LexLeq(Key(q[0]), Key(x)) {
      InsertByKeySorted(x, q[1..]);
      InsertAfterHead(x, q);
    } else {
      InsertAtFront(x, q);
    }
  }

  lemma InsertAfterHead(x: string, q: seq<string>)
    requires q != [] && SortedByKey(q) && LexLeq(Key(q[0]), Key(x))
    requires SortedByKey(InsertByKey(x, q[1..]))
    ensures SortedByKey([q[0]] + InsertByKey(x, q[1..]))
  {
    HeadBelowTail(q);
    InsertKeepsLowerBound(x, q[1..], Key(q[0]));
    ConsSorted(q[0], InsertByKey(x, q[1..]));
  }

  lemma HeadBelowTail(q: seq<string>)
    requires q != [] && SortedByKey(q)
    ensures forall i :: 0 <= i < |q[1..]| ==> LexLeq(Key(q[0]), Key(q[1..][i]))
  {
    forall i | 0 <= i < |q[1..]|
      ensures LexLeq(Key(q[0]), Key(q[1..][i]))
    {
      assert q[1..][i] == q[i + 1];
    }
  }

  /** An item whose key is at or below every key of a sorted queue can go in front of it. */
  lemma ConsSorted(head: string, tail: seq<string>)
    requires SortedByKey(tail)
    requires forall i :: 0 <= i < |tail| ==> LexLeq(Key(head), Key(tail[i]))
    ensures SortedByKey([head] + tail)
  {
    var r := [head] + tail;
    forall i, j | 0 <= i < j < |r|
      ensures LexLeq(Key(r[i]), Key(r[j]))
    {
      assert r[j] == tail[j - 1];
      if i > 0 {
        assert r[i] == tail[i - 1];
      }
    }
  }

  /** A key at or below `x`'s and every key of `q` stays at or below every key after inserting. */
  lemma {:induction false} InsertKeepsLowerBound(x: string, q: seq<string>, low: string)
    requires LexLeq(low, Key(x))
    requires forall i :: 0 <= i < |q| ==> LexLeq(low, Key(q[i]))
    ensures forall i :: 0 <= i < |InsertByKey(x, q)| ==> LexLeq(low, Key(InsertByKey(x, q)[i]))
  {
    if q != [] && LexLeq(Key(q[0]), Key(x)) {
      InsertKeepsLowerBound(x, q[1..], low);
      var r := InsertByKey(x, q);
      forall i | 0 <= i < |r|
        ensures LexLeq(low, Key(r[i]))
      {
        if i > 0 {
          assert r[i] == InsertByKey(x, q[1..])[i - 1];
        }
      }
    }
  }

  lemma InsertAtFront(x: string, q: seq<string>)
    requires q != [] && SortedByKey(q) && !LexLeq(Key(q[0]), Key(x))
    ensures SortedByKey([x] + q)
  {
    LexLeqTotal(Key(q[0]), Key(x));
    var r := [x] + q;
    forall i, j | 0 <= i < j < |r|
      ensures LexLeq(Key(r[i]), Key(r[j]))
    {
      assert r[j] == q[j - 1];
      if i > 0 {
        assert r[i] == q[i - 1];
      } else if j > 1 {
        LexLeqTransitive(Key(x), Key(q[0]), Key(q[j - 1]));
      }
    }
  }

  /**
   * `sortedBy { it.split("|")[0] }`: the same items, in ascending key
   * order. The order among items with equal keys is not constrained,
   * since the set the queue comes from has no order of its own.
   */
  function SortByKey(q: seq<string>): (r: seq<string>)
    ensures SortedByKey(r)
    ensures multiset(r) == multiset(q)
  {
    if q == [] then []
    else
      var rest := SortByKey(q[1..]);
      InsertByKeySorted(q[0], rest);
      InsertByKeyPermutes(q[0], rest);
      assert multiset(q) == multiset{q[0]} + multiset(q[1..]) by {
        assert q == [q[0]] + q[1..];
      }
      InsertByKey(q[0], rest)
  }

  /**
   * Keys are compared as text: the item stamped at 10 ms is replayed
   * before the one stamped at 9 ms.
   */
  lemma TextualOrderExample()
    ensures SortByKey([Encode(9, "joint"), Encode(10, "cigarette")]) == [Encode(10, "cigarette"), Encode(9, "joint")]
  {
    KeysOfExample();
    SortTwo(Encode(9, "joint"), Encode(10, "cigarette"));
  }

  lemma SortTwo(a: string, b: string)
    requires LexLeq(Key(b), Key(a))
    ensures SortByKey([a, b]) == [b, a]
  {
    assert [b][1..] == [];
    assert SortByKey([b]) == [b];
    assert [a, b][1..] == [b];
  }

  lemma KeysOfExample()
    ensures LexLeq(Key(Encode(10, "cigarette")), Key(Encode(9, "joint")))
  {
    EncodeRoundTrip(9, "joint");
    EncodeRoundTrip(10, "cigarette");
    TimestampOrderNeedsEqualLength();
  }

  /** Items stamped 3, 1 and 2 ms are replayed in the order 1, 2, 3. */
  lemma ReplayOrderExample()
    ensures SortByKey([Encode(3, "joint"), Encode(1, "cigarette"), Encode(2, "thc_joint")])
         == [Encode(1, "cigarette"), Encode(2, "thc_joint"), Encode(3, "joint")]
  {
    var a, b, c := Encode(3, "joint"), Encode(1, "cigarette"), Encode(2, "thc_joint");
    KeysOfOrderExample();
    SortThree(a, b, c);
  }

  lemma KeysOfOrderExample()
    ensures Key(Encode(3, "joint")) == "3" && Key(Encode(1, "cigarette")) == "1"
    ensures Key(Encode(2, "thc_joint")) == "2"
  {
    EncodeRoundTrip(3, "joint");
    EncodeRoundTrip(1, "cigarette");
    EncodeRoundTrip(2, "thc_joint");
    assert NatString(1) == "1" && NatString(2) == "2" && NatString(3) == "3";
  }

  lemma SortThree(a: string, b: string, c: string)
    requires LexLeq(Key(b), Key(a)) && LexLeq(Key(c), Key(a))
    requires !LexLeq(Key(c), Key(b))
    ensures SortByKey([a, b, c]) == [b, c, a]
  {
    assert [c][1..] == [];
    assert SortByKey([c]) == [c];
    assert [b, c][1..] == [c];
    assert SortByKey([b, c]) == InsertByKey(b, [c]) == [b, c];
    assert [a, b, c][1..] == [b, c];
    assert [b, c][1..] == [c];
    assert InsertByKey(a, [c]) == [c, a];
  }

  /** `toMutableList()` of the stored set: every member once, in some order. */
  method ListOf(s: set<string>) returns (q: seq<string>)
    ensures multiset(q) == multiset(s)
    ensures |q| == |s|
  {
    q := [];
    var rest := s;
    while rest != {}
      invariant rest <= s
      invariant multiset(q) == multiset(s - rest)
      invariant |q| + |rest| == |s|
      decreases |rest|
    {
      var x :| x in rest;
      q := q + [x];
      assert s - (rest - {x}) == (s - rest) + {x};
      rest := rest - {x};
    }
    assert s - rest == s;
  }

  /** Each member of a set occurs exactly once in a listing of it. */
  lemma ListedOnce(s: set<string>, q: seq<string>, x: string)
    requires multiset(q) == multiset(s) && x in s
    ensures multiset(q)[x] == 1
  {
  }
}
