/**
 * The activity's entry side: the three per-category lists on screen, the
 * cached copy of the last response, the offline queue of posts that could
 * not be sent, and the requests sent to the remote service. Network
 * probes, request outcomes, clocks and the current time are parameters.
 */
module Tracker {
  import opened Wrappers
  import opened Snapshot
  import opened QueueFormat

  /** A request to the remote service: a POST of `{"type": tag}` and whether it was accepted, or a re-fetch of today's entries. */
  datatype Request = Post(tag: string, delivered: bool) | Fetch

  /** Every queued item carries the `|` that separates timestamp from type. */
  predicate Splittable(q: seq<string>) {
    forall i :: 0 <= i < |q| ==> '|' in q[i]
  }

  /** The POSTs the drain sends for `q`, one per item and in the same order. */
  function Replay(q: seq<string>, delivered: string -> bool): (r: seq<Request>)
    requires Splittable(q)
    ensures |r| == |q|
    ensures forall i :: 0 <= i < |q| ==> r[i] == Post(TypeOf(q[i]), delivered(q[i]))
  {
    if q == [] then [] else [Post(TypeOf(q[0]), delivered(q[0]))] + Replay(q[1..], delivered)
  }

  class SmokeTracker {
    var cigEntries: seq<SmokeEntry>
    var weedEntries: seq<SmokeEntry>
    var thcEntries: seq<SmokeEntry>
    /** `last_response` of the `SmokeCache` preferences, as the records it holds. */
    var cached: Option<Response>
    /** `pending_posts` of the `OfflineQueue` preferences; a removed key reads as empty. */
    var pending: set<string>
    /** Requests sent to the remote service, oldest first. */
    var requests: seq<Request>

    /** Every queued item can be split into a timestamp and a type. */
    predicate Valid()
      reads this
    {
      forall x :: x in pending ==> '|' in x
    }

    function Entries(): Lists
      reads this
    {
      Lists(cigEntries, weedEntries, thcEntries)
    }

    /** A fresh activity: empty lists, the stored cache and queue as they were left. */
    constructor (cached: Option<Response>, pending: set<string>)
      requires forall x :: x in pending ==> '|' in x
      ensures Valid() && Entries() == NoEntries
      ensures this.cached == cached && this.pending == pending && requests == []
    {
      cigEntries, weedEntries, thcEntries := [], [], [];
      this.cached := cached;
      this.pending := pending;
      requests := [];
    }

    /**
     * `processResponse`: the lists are cleared, then every item up to the
     * first one missing `type` or `createdAt` (or not an object) is filed
     * under its own category, skipping unreadable timestamps, missing ids
     * and unknown types.
     */
    method ProcessResponse(response: Response, clock: Clock)
      modifies this
      ensures Entries() == Parse(response, clock)
      ensures cached == old(cached) && pending == old(pending) && requests == old(requests)
    {
      cigEntries, weedEntries, thcEntries := [], [], [];
      if response.Malformed? {
        return;
      }
      var items := response.items;
      var i := 0;
      while i < |items|
        invariant 0 <= i <= |items|
        invariant forall j :: 0 <= j < i ==> !Aborts(items[j])
        invariant cigEntries == Filed(items[..i], Cigarette, clock)
        invariant weedEntries == Filed(items[..i], Joint, clock)
        invariant thcEntries == Filed(items[..i], ThcJoint, clock)
        invariant cached == old(cached) && pending == old(pending) && requests == old(requests)
      {
        var item := items[i];
        if item.NotObject? || item.tag.None? || item.createdAt.None? {
          break;
        }
        var time := clock(item.createdAt.value);
        if time.Some? && item.id.Some? {
          var entry := SmokeEntry(item.id.value, time.value);
          var tag := item.tag.value;
          if tag == "cigarette" {
            cigEntries := cigEntries + [entry];
          } else if tag == "joint" {
            weedEntries := weedEntries + [entry];
          } else if tag == "thc_joint" {
            thcEntries := thcEntries + [entry];
          }
        }
        assert items[..i + 1] == items[..i] + [item];
        FiledSnoc(items[..i], item, Cigarette, clock);
        FiledSnoc(items[..i], item, Joint, clock);
        FiledSnoc(items[..i], item, ThcJoint, clock);
        i := i + 1;
      }
      ReachedUpTo(items, i);
    }

    /**
     * The two callbacks of `fetchSmokeData`: a response is cached and
     * filed; a failure files the cached response when there is one and
     * otherwise leaves the lists as they are.
     */
    method OnFetchResult(result: Option<Response>, clock: Clock)
      modifies this
      ensures result.Some? ==> cached == result && Entries() == Parse(result.value, clock)
      ensures result.None? && old(cached).Some? ==> Entries() == Parse(old(cached).value, clock)
      ensures result.None? && old(cached).None? ==> Entries() == old(Entries())
      ensures result.None? ==> cached == old(cached)
      ensures pending == old(pending) && requests == old(requests)
    {
      match result
      case Some(response) =>
        cached := Some(response);
        ProcessResponse(response, clock);
      case None =>
        if cached.Some? {
          ProcessResponse(cached.value, clock);
        }
    }

    /**
     * `queueOfflinePost`: the item `"<millis>|<type>"` joins the stored
     * set (an identical item already there stays a single item).
     */
    method QueueOfflinePost(tag: string, millis: int)
      requires Valid()
      modifies this
      ensures Valid()
      ensures pending == old(pending) + {Encode(millis, tag)}
      ensures Entries() == old(Entries()) && cached == old(cached) && requests == old(requests)
    {
      pending := pending + {Encode(millis, tag)};
    }

    /**
     * `saveDataToCache(createCachedJsonFromCurrentLists())`: the cache
     * becomes the snapshot of the current lists; nothing else changes.
     */
    method CacheEntries(stamps: Stamps)
      modifies this
      ensures cached == Some(Data(CachedItems(Entries(), stamps)))
      ensures Entries() == old(Entries()) && pending == old(pending) && requests == old(requests)
    {
      cached := Some(Data(CachedItems(Entries(), stamps)));
    }

    /**
     * `postSmokeEntry(tag)`: a placeholder stamped `nowMillis` goes to the
     * front of the tag's list. Offline, or when the POST fails, the post is
     * queued (stamped `queuedMillis`) and the lists are cached, each record
     * with its own reading of the current time from `stamps`; a delivered
     * POST triggers a re-fetch.
     */
    method PostSmokeEntry(tag: string, nowMillis: int, clockText: string, online: bool, delivered: bool,
                          queuedMillis: int, stamps: Stamps)
      requires Valid()
      modifies this
      ensures Valid()
      ensures Entries() == WithPlaceholder(old(Entries()), tag, PlaceholderEntry(nowMillis, clockText))
      ensures online ==> |requests| > |old(requests)| && requests[|old(requests)|] == Post(tag, delivered)
      ensures online && delivered ==>
        && requests == old(requests) + [Post(tag, true), Fetch]
        && pending == old(pending) && cached == old(cached)
      ensures !(online && delivered) ==>
        && requests == old(requests) + (if online then [Post(tag, false)] else [])
        && pending == old(pending) + {Encode(queuedMillis, tag)}
        && cached == Some(Data(CachedItems(Entries(), stamps)))
    {
      var entry := PlaceholderEntry(nowMillis, clockText);
      if tag == "cigarette" {
        cigEntries := [entry] + cigEntries;
      } else if tag == "joint" {
        weedEntries := [entry] + weedEntries;
      } else if tag == "thc_joint" {
        thcEntries := [entry] + thcEntries;
      }
      if !online {
        QueueOfflinePost(tag, queuedMillis);
        CacheEntries(stamps);
      } else {
        requests := requests + [Post(tag, delivered)];
        if delivered {
          requests := requests + [Fetch];
        } else {
          QueueOfflinePost(tag, queuedMillis);
          CacheEntries(stamps);
        }
      }
    }

    /**
     * `syncOfflineQueue` with `postNext`: nothing when the probe fails or
     * the queue is empty; otherwise every queued item is posted once, in
     * ascending order of its timestamp text, whatever each POST's outcome,
     * then the queue is removed and a re-fetch follows.
     */
    method SyncOfflineQueue(online: bool, delivered: string -> bool) returns (replayed: seq<string>)
      requires Valid()
      modifies this
      ensures Valid()
      ensures Entries() == old(Entries()) && cached == old(cached)
      ensures !online || old(pending) == {} ==>
        replayed == [] && pending == old(pending) && requests == old(requests)
      ensures online && old(pending) != {} ==>
        && SortedByKey(replayed) && multiset(replayed) == multiset(old(pending))
        && Splittable(replayed)
        && requests == old(requests) + Replay(replayed, delivered) + [Fetch]
        && pending == {}
    {
      if !online || pending == {} {
        return [];
      }
      var listed := ListOf(pending);
      replayed := SortByKey(listed);
      QueuedItemsSplit(old(pending), replayed);
      PostInOrder(replayed, delivered);
      pending := {};
      requests := requests + [Fetch];
    }

    /** `postNext(0)`: one POST per item, in order, moving on after a failure as after a success. */
    method PostInOrder(q: seq<string>, delivered: string -> bool)
      requires Splittable(q)
      modifies this
      ensures requests == old(requests) + Replay(q, delivered)
      ensures Entries() == old(Entries()) && cached == old(cached) && pending == old(pending)
    {
      var i := 0;
      while i < |q|
        invariant 0 <= i <= |q|
        invariant requests == old(requests) + Replay(q[..i], delivered)
        invariant Entries() == old(Entries()) && cached == old(cached) && pending == old(pending)
      {
        var tag := TypeOf(q[i]);
        requests := requests + [Post(tag, delivered(q[i]))];
        assert q[..i + 1] == q[..i] + [q[i]];
        i := i + 1;
      }
      assert q[..i] == q;
    }

    /** `performReset`: the three lists are emptied; nothing stored changes. */
    method PerformReset()
      modifies this
      ensures Entries() == NoEntries
      ensures cached == old(cached) && pending == old(pending) && requests == old(requests)
    {
      cigEntries, weedEntries, thcEntries := [], [], [];
    }
  }

  lemma QueuedItemsSplit(queued: set<string>, q: seq<string>)
    requires forall x :: x in queued ==> '|' in x
    requires multiset(q) == multiset(queued)
    ensures Splittable(q)
  {
    forall k | 0 <= k < |q|
      ensures '|' in q[k]
    {
      assert q[k] in multiset(q);
    }
  }

  /** After a drain, every item that was queued has been posted exactly once and nothing else has. */
  lemma DrainPostsEachOnce(queued: set<string>, replayed: seq<string>)
    requires multiset(replayed) == multiset(queued)
    ensures forall x :: x in queued ==> multiset(replayed)[x] == 1
    ensures forall k :: 0 <= k < |replayed| ==> replayed[k] in queued
  {
    forall k | 0 <= k < |replayed|
      ensures replayed[k] in queued
    {
      assert replayed[k] in multiset(replayed);
    }
  }
}
