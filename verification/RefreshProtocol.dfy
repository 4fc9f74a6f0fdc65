/** The dashboard's cache object: every method is one critical section under the cache mutex. */
module RefreshProtocol {
  import opened Models
  import opened FrameOrder
  import opened FrameCache
  import opened LatestFrames

  const FRAMES_CACHE_TTL_MS: nat := 5000

  datatype Cache = Cache(refreshedAtMs: nat, refreshing: bool, frames: seq<Frame>, pendingPushes: seq<Frame>)

  const EMPTY_CACHE := Cache(0, false, [], [])

  /** What a request does next: answer from memory, wait for the running load, or start a load. */
  datatype Decision =
    | Answer(frames: seq<Frame>)
    | Wait
    | SyncLoad
    | ReturnStaleStartBg(frames: seq<Frame>)

  predicate IsStale(c: Cache, nowMs: nat) {
    nowMs > c.refreshedAtMs + FRAMES_CACHE_TTL_MS
  }

  function Recorded(c: Cache, frame: Frame, nowMs: nat): Cache {
    if c.refreshing then c.(pendingPushes := c.pendingPushes + [frame])
    else c.(frames := Merged(c.frames, frame), refreshedAtMs := nowMs)
  }

  /** A request that finds the cache stale and nobody refreshing becomes the refresher. */
  predicate StartsLoad(c: Cache, nowMs: nat) {
    IsStale(c, nowMs) && !c.refreshing
  }

  function Refreshed(c: Cache, loaded: seq<Frame>, nowMs: nat): Cache {
    Cache(nowMs, false, MergedAll(loaded, c.pendingPushes), [])
  }

  /** `g` stays or comes in when `frame` is merged: it is `frame`, or was there under another end or id. */
  ghost predicate Belongs(g: Frame, frames: seq<Frame>, frame: Frame) {
    g == frame || (g in frames && !(g.windowEnd == frame.windowEnd && g.frameId == frame.frameId))
  }

  /** `out` is what belongs, oldest first, without the oldest ones when there are more than 65536. */
  ghost predicate IsUpsert(out: seq<Frame>, frames: seq<Frame>, frame: Frame) {
    && |out| <= 65536
    && (forall i, j :: 0 <= i < j < |out| ==> Older(out[i], out[j]))
    && (forall g :: g in out ==> Belongs(g, frames, frame))
    && (forall g :: Belongs(g, frames, frame) && g !in out ==> |out| == 65536 && forall h :: h in out ==> Older(g, h))
  }

  lemma NewestIsUpsert(out: seq<Frame>, frames: seq<Frame>, frame: Frame)
    requires UniqueKeys(frames) && IsNewest(out, StoreOf(frames + [frame]), MAX_CACHED_FRAMES)
    ensures IsUpsert(out, frames, frame)
  {
    StoreOfAppend(frames, frame);
    StoreOfUnique(frames);
    StoreKeys(frames);
    hide StoreOf, UniqueKeys;
    forall g | Belongs(g, frames, frame) && g !in out
      ensures |out| == 65536 && forall h :: h in out ==> Older(g, h)
    {
      assert Outranked(KeyOf(g), out, MAX_CACHED_FRAMES);
    }
  }

  /** Upsert, restore the order, drop the oldest when over the limit. */
  method MergeFrameIntoVec(frames: seq<Frame>, frame: Frame) returns (out: seq<Frame>)
    ensures out == Merged(frames, frame)
    ensures UniqueKeys(frames) ==> IsNewest(out, StoreOf(frames + [frame]), MAX_CACHED_FRAMES)
    ensures UniqueKeys(frames) ==> IsUpsert(out, frames, frame)
  {
    if UniqueKeys(frames) {
      FirstMerge(frames, frame);
      NewestIsUpsert(Merged(frames, frame), frames, frame);
    }
    hide IsUpsert;
    hide Sort, Retained, IsNewest, StoreOf;
    out := Retained(frames, KeyOf(frame));
    out := out + [frame];
    out := Sort(out, true);
    if |out| > MAX_CACHED_FRAMES {
      var drop := |out| - MAX_CACHED_FRAMES;
      out := out[drop..];
    }
  }

  class FramesCache {
    var refreshedAtMs: nat
    var refreshing: bool
    var frames: seq<Frame>
    var pendingPushes: seq<Frame>

    ghost function View(): Cache
      reads this
    {
      Cache(refreshedAtMs, refreshing, frames, pendingPushes)
    }

    constructor ()
      ensures View() == EMPTY_CACHE
    {
      refreshedAtMs, refreshing, frames, pendingPushes := 0, false, [], [];
    }

    /** A frame just persisted: merged at once, or set aside while a load runs. `notify` wakes waiters. */
    method RecordAggregatedFrame(frame: Frame, nowMs: nat) returns (notify: bool)
      modifies `frames, `pendingPushes, `refreshedAtMs
      ensures View() == Recorded(old(View()), frame, nowMs)
      ensures notify <==> !refreshing
      ensures !refreshing ==> refreshedAtMs == nowMs && pendingPushes == old(pendingPushes)
      ensures !refreshing && UniqueKeys(old(frames)) ==>
                && IsNewest(frames, StoreOf(old(frames) + [frame]), MAX_CACHED_FRAMES)
                && IsUpsert(frames, old(frames), frame)
      ensures refreshing ==> pendingPushes == old(pendingPushes) + [frame]
      ensures refreshing ==> frames == old(frames) && refreshedAtMs == old(refreshedAtMs)
    {
      if refreshing {
        pendingPushes := pendingPushes + [frame];
        notify := false;
      } else {
        frames := MergeFrameIntoVec(frames, frame);
        refreshedAtMs := nowMs;
        notify := true;
      }
    }

    /**
     One pass through the decision of a request. Exactly the request that turns `refreshing` on starts a
     load; only a request that has nothing to show and finds a load running waits.
     */
    method Decide(nowMs: nat) returns (d: Decision)
      modifies `refreshing
      ensures refreshing == (old(refreshing) || StartsLoad(old(View()), nowMs))
      ensures d.SyncLoad? || d.ReturnStaleStartBg? <==> StartsLoad(old(View()), nowMs)
      ensures d.Wait? <==> old(refreshing) && frames == [] && IsStale(old(View()), nowMs)
      ensures d.SyncLoad? <==> StartsLoad(old(View()), nowMs) && frames == []
      ensures d.Answer? || d.ReturnStaleStartBg? ==> d.frames == frames
      ensures d.Answer? && frames == [] ==> !IsStale(old(View()), nowMs)
      ensures refreshing && !old(refreshing) <==> !old(refreshing) && nowMs > refreshedAtMs + 5000
    {
      var ageMs := if nowMs > refreshedAtMs then nowMs - refreshedAtMs else 0;
      if ageMs <= FRAMES_CACHE_TTL_MS {
        return Answer(frames);
      }
      if refreshing {
        if frames != [] {
          return Answer(frames);
        }
        return Wait;
      } else if frames == [] {
        refreshing := true;
        return SyncLoad;
      } else {
        refreshing := true;
        return ReturnStaleStartBg(frames);
      }
    }

    /** The same decision for `/api/latest`, which shows the newest ten of what it would return. */
    method DecideLatest(nowMs: nat) returns (d: Decision)
      modifies `refreshing
      ensures refreshing == (old(refreshing) || StartsLoad(old(View()), nowMs))
      ensures d.SyncLoad? || d.ReturnStaleStartBg? <==> StartsLoad(old(View()), nowMs)
      ensures d.Wait? <==> old(refreshing) && frames == [] && IsStale(old(View()), nowMs)
      ensures d.SyncLoad? <==> StartsLoad(old(View()), nowMs) && frames == []
      ensures d.Answer? || d.ReturnStaleStartBg? ==> KeysOf(d.frames) == KeysOf(NewestNaive(frames))
      ensures (d.Answer? || d.ReturnStaleStartBg?) && UniqueKeys(frames) ==> d.frames == NewestNaive(frames)
      ensures d.Answer? || d.ReturnStaleStartBg? ==> IsNewestTen(frames, d.frames)
    {
      hide IsNewestTen;
      d := Decide(nowMs);
      if d.Answer? {
        var latest := NewestFramesBounded(d.frames);
        d := Answer(latest);
      } else if d.ReturnStaleStartBg? {
        var latest := NewestFramesBounded(d.frames);
        d := ReturnStaleStartBg(latest);
      }
    }

    /** The end of a load: what was set aside is merged into its result, which replaces the cache. */
    method ApplyDiskRefresh(loaded: seq<Frame>, nowMs: nat) returns (refreshed: seq<Frame>)
      modifies this
      ensures View() == Refreshed(old(View()), loaded, nowMs) && refreshed == frames
      ensures refreshedAtMs == nowMs && !refreshing && pendingPushes == []
      ensures old(pendingPushes) == [] ==> frames == loaded
      ensures UniqueKeys(loaded) && old(pendingPushes) != [] ==>
                IsNewest(frames, StoreOf(loaded + old(pendingPushes)), MAX_CACHED_FRAMES)
    {
      refreshed := loaded;
      var p := pendingPushes;
      if UniqueKeys(loaded) && p != [] {
        IncrementalIsBatch(loaded, p);
      }
      hide IsNewest, StoreOf, Merged, UniqueKeys;
      for i := 0 to |p|
        invariant refreshed == MergedAll(loaded, p[..i])
      {
        assert p[..i + 1][..i] == p[..i];
        refreshed := MergeFrameIntoVec(refreshed, p[i]);
      }
      assert p[..|p|] == p;
      pendingPushes := [];
      frames := refreshed;
      refreshedAtMs := nowMs;
      refreshing := false;
    }

    /** The same for a `/api/latest` request that waited for its own load: it shows the newest ten of the result. */
    method ApplyAndShowLatest(loaded: seq<Frame>, nowMs: nat) returns (shown: seq<Frame>)
      modifies this
      ensures View() == Refreshed(old(View()), loaded, nowMs)
      ensures KeysOf(shown) == KeysOf(NewestNaive(frames))
      ensures UniqueKeys(frames) ==> shown == NewestNaive(frames)
      ensures IsNewestTen(frames, shown)
      ensures refreshedAtMs == nowMs && !refreshing && pendingPushes == []
    {
      hide IsNewestTen;
      var refreshed := ApplyDiskRefresh(loaded, nowMs);
      shown := NewestFramesBounded(refreshed);
    }
  }
}
