/**
 * The entry snapshot: the records the remote service returns for today
 * (`{ data: [ {id, type, createdAt} ] }`), how `processResponse` files
 * them into the three per-category lists, how
 * `createCachedJsonFromCurrentLists` turns the lists back into records,
 * and the placeholder entry of an optimistic post. JSON text itself is not
 * modelled: records are datatypes, and a response whose top level is not
 * an object with a `data` array is `Malformed`.
 */
module Snapshot {
  import opened Wrappers
  import opened Numbers

  datatype Category = Cigarette | Joint | ThcJoint

  /** The wire `type` value of a category. */
  function Tag(c: Category): string {
    match c
    case Cigarette => "cigarette"
    case Joint => "joint"
    case ThcJoint => "thc_joint"
  }

  /** The category a wire `type` value names; unknown values name none. */
  function CategoryOf(tag: string): (r: Option<Category>)
    ensures r.Some? ==> Tag(r.value) == tag
    ensures r.None? ==> forall c: Category :: Tag(c) != tag
  {
    if tag == "cigarette" then Some(Cigarette)
    else if tag == "joint" then Some(Joint)
    else if tag == "thc_joint" then Some(ThcJoint)
    else None
  }

  /** `SmokeEntry(id, time)`: the id and the `HH:mm` text shown for it. */
  datatype SmokeEntry = SmokeEntry(id: string, time: string)

  /**
   * One element of the `data` array: something that is not an object, or
   * an object whose `id`, `type` and `createdAt` keys may be missing.
   */
  datatype Item = NotObject | Record(id: Option<string>, tag: Option<string>, createdAt: Option<string>)

  datatype Response = Malformed | Data(items: seq<Item>)

  /** `cigEntries`, `weedEntries` and `thcEntries`. */
  datatype Lists = Lists(cig: seq<SmokeEntry>, weed: seq<SmokeEntry>, thc: seq<SmokeEntry>) {
    function Of(c: Category): seq<SmokeEntry> {
      match c
      case Cigarette => cig
      case Joint => weed
      case ThcJoint => thc
    }

    function Count(): nat {
      |cig| + |weed| + |thc|
    }
  }

  const NoEntries: Lists := Lists([], [], [])

  /**
   * `OffsetDateTime.parse(createdAt)` followed by `HH:mm` formatting in
   * the default locale and time zone: the text shown, or `None` when the
   * timestamp does not parse.
   */
  type Clock = string -> Option<string>

  /**
   * An item on which `processResponse` gives up on the whole remaining
   * array: `getJSONObject`, `getString("type")` and
   * `getString("createdAt")` sit outside the per-entry `try`.
   */
  predicate Aborts(item: Item) {
    item.NotObject? || item.tag.None? || item.createdAt.None?
  }

  /**
   * What one item files: nothing when it aborts, when its timestamp does
   * not parse, when it has no `id` (those two are caught per entry) or when
   * its type is unknown; otherwise its entry under its category.
   */
  function Filing(item: Item, clock: Clock): (r: Option<(Category, SmokeEntry)>)
    ensures r.Some? <==>
      && !Aborts(item) && item.id.Some?
      && clock(item.createdAt.value).Some? && CategoryOf(item.tag.value).Some?
    ensures r.Some? ==>
      && Tag(r.value.0) == item.tag.value
      && r.value.1 == SmokeEntry(item.id.value, clock(item.createdAt.value).value)
  {
    if Aborts(item) then None
    else match clock(item.createdAt.value)
      case None => None
      case Some(time) =>
        if item.id.None? then None
        else match CategoryOf(item.tag.value)
          case None => None
          case Some(c) => Some((c, SmokeEntry(item.id.value, time)))
  }

  /** The items `processResponse` gets through: everything before the first aborting item. */
  function Reached(items: seq<Item>): (r: seq<Item>)
    ensures |r| <= |items| && r == items[..|r|]
    ensures forall i :: 0 <= i < |r| ==> !Aborts(r[i])
    ensures |r| < |items| ==> Aborts(items[|r|])
  {
    if items == [] || Aborts(items[0]) then []
    else [items[0]] + Reached(items[1..])
  }

  /** The entries `items` file under category `c`, in input order. */
  function Filed(items: seq<Item>, c: Category, clock: Clock): seq<SmokeEntry> {
    if items == [] then []
    else FiledOne(items[0], c, clock) + Filed(items[1..], c, clock)
  }

  /** The entry one item files under `c`, if any. */
  function FiledOne(item: Item, c: Category, clock: Clock): seq<SmokeEntry> {
    match Filing(item, clock)
    case Some((c', e)) => if c' == c then [e] else []
    case None => []
  }

  /**
   * The three lists after `processResponse(response)`: cleared first,
   * then each reached item filed under its own category.
   */
  function Parse(response: Response, clock: Clock): (r: Lists)
    ensures response.Malformed? ==> r == NoEntries
    ensures response.Data? ==> r.Count() <= |response.items|
  {
    match response
    case Malformed => NoEntries
    case Data(items) =>
      var reached := Reached(items);
      FiledCount(reached, clock);
      Lists(Filed(reached, Cigarette, clock), Filed(reached, Joint, clock), Filed(reached, ThcJoint, clock))
  }

  /** Each item files at most one entry, in one category. */
  lemma {:induction false} FiledCount(items: seq<Item>, clock: Clock)
    ensures |Filed(items, Cigarette, clock)| + |Filed(items, Joint, clock)| + |Filed(items, ThcJoint, clock)| <= |items|
  {
    if items != [] {
      FiledCount(items[1..], clock);
      var x := items[0];
      assert |FiledOne(x, Cigarette, clock)| + |FiledOne(x, Joint, clock)| + |FiledOne(x, ThcJoint, clock)| <= 1;
    }
  }

  /** Filing is done item by item: the entries of a concatenation concatenate. */
  lemma {:induction false} FiledAppend(a: seq<Item>, b: seq<Item>, c: Category, clock: Clock)
    ensures Filed(a + b, c, clock) == Filed(a, c, clock) + Filed(b, c, clock)
  {
    if a == [] {
      assert a + b == b;
    } else {
      assert (a + b)[0] == a[0];
      assert (a + b)[1..] == a[1..] + b;
      FiledAppend(a[1..], b, c, clock);
      calc {
        Filed(a + b, c, clock);
        FiledOne(a[0], c, clock) + Filed(a[1..] + b, c, clock);
        FiledOne(a[0], c, clock) + (Filed(a[1..], c, clock) + Filed(b, c, clock));
        (FiledOne(a[0], c, clock) + Filed(a[1..], c, clock)) + Filed(b, c, clock);
      }
    }
  }

  /**
   * Every entry in the list of category `c` comes from an item whose
   * `type` is that category's tag, carrying the item's id and the clock
   * text of its timestamp.
   */
  lemma {:induction false} FiledFromOwnCategory(items: seq<Item>, c: Category, clock: Clock, k: nat)
    requires k < |Filed(items, c, clock)|
    ensures exists j :: 0 <= j < |items| && Filing(items[j], clock) == Some((c, Filed(items, c, clock)[k]))
  {
    var head := FiledOne(items[0], c, clock);
    assert Filed(items, c, clock) == head + Filed(items[1..], c, clock);
    if k < |head| {
      assert Filing(items[0], clock) == Some((c, Filed(items, c, clock)[k]));
    } else {
      FiledFromOwnCategory(items[1..], c, clock, k - |head|);
      var j :| 0 <= j < |items[1..]| && Filing(items[1..][j], clock) == Some((c, Filed(items[1..], c, clock)[k - |head|]));
      assert Filing(items[j + 1], clock) == Some((c, Filed(items, c, clock)[k]));
    }
  }

  /** Conversely, every item that files an entry under `c` has it in that list. */
  lemma {:induction false} FiledComplete(items: seq<Item>, c: Category, clock: Clock, j: nat)
    requires j < |items| && Filing(items[j], clock).Some? && Filing(items[j], clock).value.0 == c
    ensures Filing(items[j], clock).value.1 in Filed(items, c, clock)
  {
    if j > 0 {
      FiledComplete(items[1..], c, clock, j - 1);
      assert items[1..][j - 1] == items[j];
    }
  }

  /**
   * An entry whose timestamp does not parse (or that has no id) is
   * skipped, and the entries after it are still filed.
   */
  lemma SkipsUnreadableEntry(a: seq<Item>, x: Item, b: seq<Item>, clock: Clock)
    requires !Aborts(x) && Filing(x, clock).None?
    ensures Parse(Data(a + [x] + b), clock) == Parse(Data(a + b), clock)
  {
    ReachedSkip(a, x, b);
    if Reached(a) == a {
      var rest := Reached(b);
      FiledSkip(a, x, rest, Cigarette, clock);
      FiledSkip(a, x, rest, Joint, clock);
      FiledSkip(a, x, rest, ThcJoint, clock);
    }
  }

  lemma FiledSkip(a: seq<Item>, x: Item, rest: seq<Item>, c: Category, clock: Clock)
    requires Filing(x, clock).None?
    ensures Filed(a + [x] + rest, c, clock) == Filed(a + rest, c, clock)
  {
    FiledAppend(a + [x], rest, c, clock);
    FiledAppend(a, [x], c, clock);
    FiledAppend(a, rest, c, clock);
    assert [x][1..] == [];
    assert FiledOne(x, c, clock) == [];
    assert Filed([x], c, clock) == [];
    calc {
      Filed(a + [x] + rest, c, clock);
      Filed(a + [x], c, clock) + Filed(rest, c, clock);
      Filed(a, c, clock) + Filed([x], c, clock) + Filed(rest, c, clock);
      Filed(a, c, clock) + Filed(rest, c, clock);
    }
  }

  lemma ReachedSkip(a: seq<Item>, x: Item, b: seq<Item>)
    requires !Aborts(x)
    ensures Reached(a) == a ==> Reached(a + [x] + b) == a + [x] + Reached(b) && Reached(a + b) == a + Reached(b)
    ensures Reached(a) != a ==> Reached(a + [x] + b) == Reached(a) && Reached(a + b) == Reached(a)
  {
    assert a + [x] + b == a + ([x] + b);
    ReachedPrefix(a, [x] + b);
    ReachedPrefix(a, b);
    ReachedCons(x, b);
  }

  lemma ReachedCons(y: Item, rest: seq<Item>)
    ensures Reached([y] + rest) == if Aborts(y) then [] else [y] + Reached(rest)
  {
    assert ([y] + rest)[0] == y && ([y] + rest)[1..] == rest;
  }

  /** Reaching is decided left to right: a fully reached prefix hands over to what follows it. */
  lemma {:induction false} ReachedPrefix(a: seq<Item>, b: seq<Item>)
    ensures Reached(a) == a ==> Reached(a + b) == a + Reached(b)
    ensures Reached(a) != a ==> Reached(a + b) == Reached(a)
  {
    if a == [] {
      assert a + b == b;
    } else {
      assert a == [a[0]] + a[1..];
      assert a + b == [a[0]] + (a[1..] + b);
      ReachedCons(a[0], a[1..]);
      ReachedCons(a[0], a[1..] + b);
      if !Aborts(a[0]) {
        ReachedPrefix(a[1..], b);
        if Reached(a[1..]) == a[1..] {
          assert [a[0]] + (a[1..] + Reached(b)) == a + Reached(b);
        }
      }
    }
  }

  /**
   * An item that is not an object, or lacks `type` or `createdAt`, ends
   * the processing: what came before it stays filed, nothing after it is.
   */
  lemma StopsAtBrokenItem(a: seq<Item>, x: Item, b: seq<Item>, clock: Clock)
    requires Aborts(x)
    ensures Parse(Data(a + [x] + b), clock) == Parse(Data(a), clock)
  {
    assert a + [x] + b == a + ([x] + b);
    ReachedPrefix(a, [x] + b);
    ReachedCons(x, b);
    assert a + [] == a;
  }

  /** Filing one more item appends what that item files. */
  lemma FiledSnoc(items: seq<Item>, x: Item, c: Category, clock: Clock)
    ensures Filed(items + [x], c, clock) == Filed(items, c, clock) + FiledOne(x, c, clock)
  {
    FiledAppend(items, [x], c, clock);
    assert [x][1..] == [];
  }

  /**
   * A scan that passed `i` items without an abort and then met an
   * aborting item (or the end) has reached exactly those `i` items.
   */
  lemma ReachedUpTo(items: seq<Item>, i: nat)
    requires i <= |items|
    requires forall j :: 0 <= j < i ==> !Aborts(items[j])
    requires i < |items| ==> Aborts(items[i])
    ensures Reached(items) == items[..i]
  {
  }

  // ----- The cache snapshot -----

  /**
   * The `type` written for an entry: the first list that contains an
   * equal entry, checking cigarettes, then joints, else `thc_joint`. With
   * disjoint lists that is the tag of the list the entry is in.
   */
  function TagIn(l: Lists, e: SmokeEntry): (r: string)
    ensures CategoryOf(r).Some?
    ensures Disjoint(l) ==> forall c :: e in l.Of(c) ==> r == Tag(c)
  {
    if e in l.cig then Tag(Cigarette)
    else if e in l.weed then Tag(Joint)
    else Tag(ThcJoint)
  }

  /**
   * `OffsetDateTime.now().toString()` at each call: `stamps(k)` is the
   * text of the `k`-th call made while writing one snapshot.
   */
  type Stamps = nat -> string

  /** The clock reads the stamps of calls `lo` up to `hi`. */
  predicate Readable(clock: Clock, stamps: Stamps, lo: nat, hi: nat) {
    forall k: nat :: lo <= k < hi ==> clock(stamps(k)).Some?
  }

  /** Records for `es`, the `i`-th stamped with call `offset + i`. */
  function Records(es: seq<SmokeEntry>, l: Lists, stamps: Stamps, offset: nat): (r: seq<Item>)
    ensures |r| == |es|
  {
    if es == [] then [] else
      [Record(Some(es[0].id), Some(TagIn(l, es[0])), Some(stamps(offset)))] + Records(es[1..], l, stamps, offset + 1)
  }

  /**
   * `createCachedJsonFromCurrentLists`: one complete record per entry,
   * cigarettes first, then joints, then THC joints, the `i`-th stamped
   * with the `i`-th reading of the current time.
   */
  function CachedItems(l: Lists, stamps: Stamps): (r: seq<Item>)
    ensures |r| == l.Count()
    ensures forall i :: 0 <= i < |r| ==>
      && !Aborts(r[i]) && r[i].createdAt == Some(stamps(i))
      && r[i].id == Some((l.cig + l.weed + l.thc)[i].id)
  {
    RecordsAt(l.cig + l.weed + l.thc, l, stamps, 0);
    Records(l.cig + l.weed + l.thc, l, stamps, 0)
  }

  /** The `i`-th record is entry `i` with its id, its tag and stamp `offset + i`. */
  lemma {:induction false} RecordsAt(es: seq<SmokeEntry>, l: Lists, stamps: Stamps, offset: nat)
    ensures forall i :: 0 <= i < |es| ==>
      Records(es, l, stamps, offset)[i] == Record(Some(es[i].id), Some(TagIn(l, es[i])), Some(stamps(offset + i)))
  {
    if es != [] {
      RecordsAt(es[1..], l, stamps, offset + 1);
      var r := Records(es, l, stamps, offset);
      forall i | 0 <= i < |es|
        ensures r[i] == Record(Some(es[i].id), Some(TagIn(l, es[i])), Some(stamps(offset + i)))
      {
        if i > 0 {
          assert r[i] == Records(es[1..], l, stamps, offset + 1)[i - 1];
          assert es[1..][i - 1] == es[i];
        }
      }
    }
  }

  /** No entry is in two lists. */
  predicate Disjoint(l: Lists) {
    && (forall e :: e in l.cig ==> e !in l.weed && e !in l.thc)
    && (forall e :: e in l.weed ==> e !in l.thc)
  }

  /** Records for `es`, all tagged with category `c`, stamped from call `offset` on. */
  function Tagged(es: seq<SmokeEntry>, c: Category, stamps: Stamps, offset: nat): seq<Item> {
    if es == [] then []
    else [Record(Some(es[0].id), Some(Tag(c)), Some(stamps(offset)))] + Tagged(es[1..], c, stamps, offset + 1)
  }

  /**
   * What parsing gives back for entries `es` stamped from call `offset`
   * on: each entry whose stamp the clock reads, with its id and the clock
   * text of its own stamp; when every stamp reads, all of them, in order.
   */
  function Restamped(es: seq<SmokeEntry>, clock: Clock, stamps: Stamps, offset: nat): (r: seq<SmokeEntry>)
    ensures |r| <= |es|
  {
    if es == [] then []
    else
      var rest := Restamped(es[1..], clock, stamps, offset + 1);
      match clock(stamps(offset))
      case Some(time) => [SmokeEntry(es[0].id, time)] + rest
      case None => rest
  }

  /** When every stamp reads, every entry comes back, in order, with its own stamp's clock text. */
  lemma {:induction false} RestampedAll(es: seq<SmokeEntry>, clock: Clock, stamps: Stamps, offset: nat)
    requires Readable(clock, stamps, offset, offset + |es|)
    ensures var r := Restamped(es, clock, stamps, offset);
      && |r| == |es|
      && forall i :: 0 <= i < |es| ==> r[i] == SmokeEntry(es[i].id, clock(stamps(offset + i)).value)
  {
    if es != [] {
      RestampedAll(es[1..], clock, stamps, offset + 1);
      var r := Restamped(es, clock, stamps, offset);
      var rest := Restamped(es[1..], clock, stamps, offset + 1);
      assert clock(stamps(offset)).Some?;
      assert r == [SmokeEntry(es[0].id, clock(stamps(offset)).value)] + rest;
      forall i | 0 <= i < |es|
        ensures r[i] == SmokeEntry(es[i].id, clock(stamps(offset + i)).value)
      {
        if i > 0 {
          assert r[i] == rest[i - 1];
          assert es[1..][i - 1] == es[i];
        }
      }
    }
  }

  lemma {:induction false} RecordsTagged(es: seq<SmokeEntry>, l: Lists, stamps: Stamps, offset: nat, c: Category)
    requires forall e :: e in es ==> TagIn(l, e) == Tag(c)
    ensures Records(es, l, stamps, offset) == Tagged(es, c, stamps, offset)
  {
    if es != [] {
      RecordsTagged(es[1..], l, stamps, offset + 1, c);
    }
  }

  lemma {:induction false} RecordsAppend(a: seq<SmokeEntry>, b: seq<SmokeEntry>, l: Lists, stamps: Stamps, offset: nat)
    ensures Records(a + b, l, stamps, offset) == Records(a, l, stamps, offset) + Records(b, l, stamps, offset + |a|)
  {
    if a == [] {
      assert a + b == b;
    } else {
      assert (a + b)[0] == a[0];
      assert (a + b)[1..] == a[1..] + b;
      RecordsAppend(a[1..], b, l, stamps, offset + 1);
      var head := [Record(Some(a[0].id), Some(TagIn(l, a[0])), Some(stamps(offset)))];
      calc {
        Records(a + b, l, stamps, offset);
        head + Records(a[1..] + b, l, stamps, offset + 1);
        head + (Records(a[1..], l, stamps, offset + 1) + Records(b, l, stamps, offset + 1 + |a[1..]|));
        (head + Records(a[1..], l, stamps, offset + 1)) + Records(b, l, stamps, offset + |a|);
      }
    }
  }

  /**
   * With disjoint lists each list's records carry that list's own tag, in
   * list order, and the stamps run on from one list to the next.
   */
  lemma CachedItemsByList(l: Lists, stamps: Stamps)
    requires Disjoint(l)
    ensures CachedItems(l, stamps) ==
      Tagged(l.cig, Cigarette, stamps, 0) + Tagged(l.weed, Joint, stamps, |l.cig|)
      + Tagged(l.thc, ThcJoint, stamps, |l.cig| + |l.weed|)
  {
    var a, b, c := l.cig, l.weed, l.thc;
    calc {
      CachedItems(l, stamps);
      Records(a + b + c, l, stamps, 0);
      { RecordsAppend(a + b, c, l, stamps, 0); }
      Records(a + b, l, stamps, 0) + Records(c, l, stamps, |a| + |b|);
      { RecordsAppend(a, b, l, stamps, 0); }
      Records(a, l, stamps, 0) + Records(b, l, stamps, |a|) + Records(c, l, stamps, |a| + |b|);
      { ListRecords(l, stamps, Cigarette, 0);
        ListRecords(l, stamps, Joint, |a|);
        ListRecords(l, stamps, ThcJoint, |a| + |b|); }
      Tagged(a, Cigarette, stamps, 0) + Tagged(b, Joint, stamps, |a|) + Tagged(c, ThcJoint, stamps, |a| + |b|);
    }
  }

  /** With disjoint lists the records of one list all carry that list's tag. */
  lemma ListRecords(l: Lists, stamps: Stamps, c: Category, offset: nat)
    requires Disjoint(l)
    ensures Records(l.Of(c), l, stamps, offset) == Tagged(l.Of(c), c, stamps, offset)
  {
    RecordsTagged(l.Of(c), l, stamps, offset, c);
  }

  lemma {:induction false} FiledTagged(es: seq<SmokeEntry>, tagged: Category, c: Category, stamps: Stamps, offset: nat, clock: Clock)
    ensures Filed(Tagged(es, tagged, stamps, offset), c, clock) ==
      if tagged == c then Restamped(es, clock, stamps, offset) else []
  {
    if es != [] {
      var t := Tagged(es, tagged, stamps, offset);
      assert t[1..] == Tagged(es[1..], tagged, stamps, offset + 1);
      FiledTagged(es[1..], tagged, c, stamps, offset + 1, clock);
    }
  }

  lemma {:induction false} ReachedAll(items: seq<Item>)
    requires forall i :: 0 <= i < |items| ==> !Aborts(items[i])
    ensures Reached(items) == items
  {
    if items != [] {
      ReachedAll(items[1..]);
    }
  }

  /**
   * Cache round trip: when no entry is in two lists, re-parsing the
   * cached records gives every category back its own entries (same ids,
   * same order), each showing the clock text of its own record's stamp;
   * when every stamp reads, the counts are the same too.
   */
  lemma CacheRoundTrip(l: Lists, stamps: Stamps, clock: Clock)
    requires Disjoint(l)
    ensures var r := Parse(Data(CachedItems(l, stamps)), clock);
      && r.cig == Restamped(l.cig, clock, stamps, 0)
      && r.weed == Restamped(l.weed, clock, stamps, |l.cig|)
      && r.thc == Restamped(l.thc, clock, stamps, |l.cig| + |l.weed|)
      && (Readable(clock, stamps, 0, l.Count()) ==> r.Count() == l.Count())
  {
    var items := CachedItems(l, stamps);
    ReachedAll(items);
    assert Parse(Data(items), clock) ==
      Lists(Filed(items, Cigarette, clock), Filed(items, Joint, clock), Filed(items, ThcJoint, clock));
    FiledCache(l, stamps, clock, Cigarette, 0);
    FiledCache(l, stamps, clock, Joint, |l.cig|);
    FiledCache(l, stamps, clock, ThcJoint, |l.cig| + |l.weed|);
    if Readable(clock, stamps, 0, l.Count()) {
      RestampedCount(l, stamps, clock);
    }
  }

  /** When every stamp reads, the three restamped lists are as long as the originals. */
  lemma RestampedCount(l: Lists, stamps: Stamps, clock: Clock)
    requires Readable(clock, stamps, 0, l.Count())
    ensures |Restamped(l.cig, clock, stamps, 0)| == |l.cig|
    ensures |Restamped(l.weed, clock, stamps, |l.cig|)| == |l.weed|
    ensures |Restamped(l.thc, clock, stamps, |l.cig| + |l.weed|)| == |l.thc|
  {
    var n, m := |l.cig|, |l.cig| + |l.weed|;
    ReadableWithin(clock, stamps, 0, l.Count(), 0, n);
    ReadableWithin(clock, stamps, 0, l.Count(), n, m);
    ReadableWithin(clock, stamps, 0, l.Count(), m, l.Count());
    RestampedAll(l.cig, clock, stamps, 0);
    RestampedAll(l.weed, clock, stamps, n);
    RestampedAll(l.thc, clock, stamps, m);
  }

  lemma ReadableWithin(clock: Clock, stamps: Stamps, lo: nat, hi: nat, lo': nat, hi': nat)
    requires Readable(clock, stamps, lo, hi) && lo <= lo' && hi' <= hi
    ensures Readable(clock, stamps, lo', hi')
  {
  }

  lemma FiledCache(l: Lists, stamps: Stamps, clock: Clock, c: Category, offset: nat)
    requires Disjoint(l)
    requires offset == match c
      case Cigarette => 0
      case Joint => |l.cig|
      case ThcJoint => |l.cig| + |l.weed|
    ensures Filed(CachedItems(l, stamps), c, clock) == Restamped(l.Of(c), clock, stamps, offset)
  {
    var tc := Tagged(l.cig, Cigarette, stamps, 0);
    var tw := Tagged(l.weed, Joint, stamps, |l.cig|);
    var tt := Tagged(l.thc, ThcJoint, stamps, |l.cig| + |l.weed|);
    CachedItemsByList(l, stamps);
    FiledAppend(tc + tw, tt, c, clock);
    FiledAppend(tc, tw, c, clock);
    FiledTagged(l.cig, Cigarette, c, stamps, 0, clock);
    FiledTagged(l.weed, Joint, c, stamps, |l.cig|, clock);
    FiledTagged(l.thc, ThcJoint, c, stamps, |l.cig| + |l.weed|, clock);
    var r := Restamped(l.Of(c), clock, stamps, offset);
    match c
    case Cigarette => assert r + [] + [] == r;
    case Joint => assert [] + r + [] == r;
    case ThcJoint => assert [] + [] + r == r;
  }

  /**
   * Without disjointness the round trip can move entries: an entry that
   * is both a cigarette and a THC joint comes back as two cigarettes.
   */
  lemma SharedEntryComesBackAsCigarette(e: SmokeEntry, stamps: Stamps, clock: Clock)
    requires Readable(clock, stamps, 0, 2)
    ensures var r := Parse(Data(CachedItems(Lists([e], [], [e]), stamps)), clock);
      |r.cig| == 2 && r.thc == []
  {
    var l := Lists([e], [], [e]);
    var items := CachedItems(l, stamps);
    assert l.cig + l.weed + l.thc == [e, e];
    RecordsTagged([e, e], l, stamps, 0, Cigarette);
    assert items == Tagged([e, e], Cigarette, stamps, 0);
    ReachedAll(items);
    FiledTagged([e, e], Cigarette, Cigarette, stamps, 0, clock);
    FiledTagged([e, e], Cigarette, ThcJoint, stamps, 0, clock);
  }

  // ----- The optimistic placeholder -----

  /** Ids made on the device start with `temp_`; the server's do not. */
  predicate IsPlaceholderId(id: string) {
    |id| >= 5 && id[..5] == "temp_"
  }

  /** `SmokeEntry("temp_${System.currentTimeMillis()}", currentTime)`. */
  function PlaceholderEntry(nowMillis: int, clockText: string): (e: SmokeEntry)
    ensures IsPlaceholderId(e.id) && e.id[5..] == DecimalString(nowMillis)
    ensures e.time == clockText
  {
    SmokeEntry("temp_" + DecimalString(nowMillis), clockText)
  }

  /** Placeholders made at different milliseconds have different ids. */
  lemma PlaceholderIdsDiffer(a: int, b: int, clockA: string, clockB: string)
    requires InLong(a) && InLong(b) && a != b
    ensures PlaceholderEntry(a, clockA).id != PlaceholderEntry(b, clockB).id
  {
    ParseDecimalRoundTrip(a);
    ParseDecimalRoundTrip(b);
    assert PlaceholderEntry(a, clockA).id[5..] == DecimalString(a);
    assert PlaceholderEntry(b, clockB).id[5..] == DecimalString(b);
  }

  /**
   * `postSmokeEntry`'s optimistic step: a known type puts the entry at the
   * front of its own list and leaves the other lists alone; an unknown
   * type changes nothing. The total grows by exactly one for a known type.
   */
  function WithPlaceholder(l: Lists, tag: string, e: SmokeEntry): (r: Lists)
    ensures CategoryOf(tag).None? ==> r == l
    ensures CategoryOf(tag).Some? ==>
      && r.Of(CategoryOf(tag).value) == [e] + l.Of(CategoryOf(tag).value)
      && forall c :: c != CategoryOf(tag).value ==> r.Of(c) == l.Of(c)
    ensures r.Count() == l.Count() + (if CategoryOf(tag).Some? then 1 else 0)
  {
    match CategoryOf(tag)
    case None => l
    case Some(Cigarette) => l.(cig := [e] + l.cig)
    case Some(Joint) => l.(weed := [e] + l.weed)
    case Some(ThcJoint) => l.(thc := [e] + l.thc)
  }
}
