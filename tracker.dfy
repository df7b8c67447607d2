/**
 * The space-time volume tracker: a tracker holding one integer bucket per
 * volume type and a count of the T states used per source, the tags that
 * measure a stretch of time and add it to a bucket, and the context that
 * collects a route's tags and applies them once.
 *
 * The clock a tag reads (`timer_source.time`) is the parameter `time`.  A
 * failed `assert` of the source is a method returning `false`.
 */
module Tracking {
  import opened Wrappers

  /** `SpaceTimeVolumeType`. */
  datatype VolumeType = RegisterVolume | FactoryVolume | RoutingVolume | TIdleVolume | BellIdleVolume | BellRoutingVolume

  /** The buckets as they start. */
  function ZeroBuckets(): map<VolumeType, int>
  {
    map[RegisterVolume := 0, FactoryVolume := 0, RoutingVolume := 0, TIdleVolume := 0, BellIdleVolume := 0, BellRoutingVolume := 0]
  }

  /** Every volume type has a bucket. */
  predicate Complete(d: map<VolumeType, int>)
  {
    forall t: VolumeType :: t in d
  }

  /** The sum of all buckets. */
  function TotalOf(d: map<VolumeType, int>): int
    requires Complete(d)
  {
    d[RegisterVolume] + d[FactoryVolume] + d[RoutingVolume] + d[TIdleVolume] + d[BellIdleVolume] + d[BellRoutingVolume]
  }

  /** `track`: `amount` more in the bucket of `t`, the rest unchanged. */
  function Tracked(d: map<VolumeType, int>, t: VolumeType, amount: int): (r: map<VolumeType, int>)
    requires Complete(d)
    ensures Complete(r) && r[t] == d[t] + amount && forall u: VolumeType | u != t :: r[u] == d[u]
  {
    d[t := d[t] + amount]
  }

  /** Tracking adds exactly the amount to the total, whichever the bucket. */
  lemma TrackedTotal(d: map<VolumeType, int>, t: VolumeType, amount: int)
    requires Complete(d)
    ensures TotalOf(Tracked(d, t, amount)) == TotalOf(d) + amount
  {
    var r := Tracked(d, t, amount);
    match t
    case RegisterVolume =>
    case FactoryVolume =>
    case RoutingVolume =>
    case TIdleVolume =>
    case BellIdleVolume =>
    case BellRoutingVolume =>
  }

  /** The tracker starts with a bucket for every type, each at 0. */
  lemma ZeroBucketsStart()
    ensures Complete(ZeroBuckets()) && TotalOf(ZeroBuckets()) == 0
    ensures forall t: VolumeType :: ZeroBuckets()[t] == 0
  {
    forall t: VolumeType
      ensures t in ZeroBuckets() && ZeroBuckets()[t] == 0
    {
      match t
      case RegisterVolume =>
      case FactoryVolume =>
      case RoutingVolume =>
      case TIdleVolume =>
      case BellIdleVolume =>
      case BellRoutingVolume =>
    }
  }

  /** `t_usage.get(source, 0) + 1` stored back. */
  function Used(usage: map<Option<string>, int>, source: Option<string>): (r: map<Option<string>, int>)
    ensures r.Keys == usage.Keys + {source}
    ensures r[source] == (if source in usage then usage[source] else 0) + 1
    ensures forall s | s in usage && s != source :: r[s] == usage[s]
  {
    usage[source := (if source in usage then usage[source] else 0) + 1]
  }

  /** `SpaceTimeVolumeTracker`. */
  class Tracker {
    var duration: map<VolumeType, int>
    var tUsage: map<Option<string>, int>
    var totalVolume: int

    constructor ()
      ensures duration == ZeroBuckets() && Complete(duration) && tUsage == map[] && totalVolume == 0
    {
      ZeroBucketsStart();
      duration := ZeroBuckets();
      tUsage := map[];
      totalVolume := 0;
    }

    /** `track`: adds to the one bucket of `t`. */
    method Track(t: VolumeType, amount: int)
      requires Complete(duration)
      modifies this
      ensures duration == Tracked(old(duration), t, amount)
      ensures tUsage == old(tUsage) && totalVolume == old(totalVolume)
    {
      duration := duration[t := duration[t] + amount];
    }
  }

  /** `SpaceTimeVolumeTrackingTag`: measures a stretch of time and charges it to one bucket. */
  class VolumeTag {
    const tracker: Tracker
    const tagType: VolumeType
    const mult: int
    var startTime: Option<int>
    var duration: Option<int>
    /** Whether the tag has its `debug` attribute, which only `start` and `copy` set. */
    var hasDebug: bool

    /** `make_tag(tag_type, mult)`. */
    constructor (tracker: Tracker, tagType: VolumeType, mult: int := 1)
      ensures this.tracker == tracker && this.tagType == tagType && this.mult == mult
      ensures startTime == None && duration == None && !hasDebug
    {
      this.tracker := tracker;
      this.tagType := tagType;
      this.mult := mult;
      startTime := None;
      duration := None;
      hasDebug := false;
    }

    /** `start`: only a tag not yet started starts, at the time plus the offset. */
    method Start(time: int, offset: int := 0) returns (ok: bool)
      modifies this
      ensures ok <==> old(startTime).None?
      ensures startTime == if ok then Some(time + offset) else old(startTime)
      ensures duration == old(duration) && hasDebug == (old(hasDebug) || ok)
    {
      if startTime.Some? {
        return false;
      }
      startTime := Some(time + offset);
      hasDebug := true;
      ok := true;
    }

    /** `end`: only a started tag ends; its duration is the time since it started, plus the offset, times the multiplier. */
    method End(time: int, offset: int := 0) returns (ok: bool)
      modifies this
      ensures ok <==> startTime.Some?
      ensures startTime == old(startTime) && hasDebug == old(hasDebug)
      ensures duration == if ok then Some((time - startTime.value + offset) * mult) else old(duration)
    {
      if startTime.None? {
        return false;
      }
      duration := Some((time - startTime.value + offset) * mult);
      ok := true;
    }

    /** `apply`: only an ended tag applies, charging its duration times the space to its bucket. */
    method Apply(space: int := 1) returns (ok: bool)
      requires Complete(tracker.duration)
      modifies tracker
      ensures ok <==> duration.Some?
      ensures tracker.duration == if ok then Tracked(old(tracker.duration), tagType, duration.value * space) else old(tracker.duration)
      ensures tracker.tUsage == old(tracker.tUsage)
    {
      if duration.None? {
        return false;
      }
      tracker.Track(tagType, duration.value * space);
      ok := true;
    }

    /**
     * `copy`: a fresh tag on the same tracker, started when this one was, not
     * ended.  Copying reads `debug`, so it fails on a tag that was never
     * started and is not itself a copy.
     */
    method Copy() returns (r: Option<VolumeTag>)
      ensures r.None? <==> !hasDebug
      ensures r.Some? ==> var tag := r.value;
        fresh(tag) && tag.tracker == tracker && tag.tagType == tagType && tag.mult == mult
        && tag.startTime == startTime && tag.duration == None && tag.hasDebug
    {
      if !hasDebug {
        return None;
      }
      var tag := new VolumeTag(tracker, tagType, mult);
      tag.startTime := startTime;
      tag.hasDebug := true;
      r := Some(tag);
    }
  }

  /** `TSourceTrackingTag`: the source a T state came from. */
  class SourceTag {
    const tracker: Tracker
    var source: Option<string>

    constructor (tracker: Tracker, source: Option<string>)
      ensures this.tracker == tracker && this.source == source
    {
      this.tracker := tracker;
      this.source := source;
    }

    /** `apply`: one more T state used from the source, which is then wiped. */
    method Apply()
      modifies this, tracker
      ensures tracker.tUsage == Used(old(tracker.tUsage), old(source)) && source == None
      ensures tracker.duration == old(tracker.duration)
    {
      tracker.tUsage := Used(tracker.tUsage, source);
      source := None;
    }

    method Copy() returns (tag: SourceTag)
      ensures fresh(tag) && tag.tracker == tracker && tag.source == source
    {
      tag := new SourceTag(tracker, source);
    }
  }

  /** `TFactorySpaceTimeVolumeTrackingTag`: a factory's whole volume. */
  class FactoryTag {
    const tracker: Tracker
    var duration: int

    /** The factory, if any, is given by its cycle count, height and width. */
    constructor (tracker: Tracker, factory: Option<(int, int, int)>)
      ensures this.tracker == tracker
      ensures duration == if factory.Some? then factory.value.0 * factory.value.1 * factory.value.2 else 0
    {
      this.tracker := tracker;
      duration := if factory.Some? then factory.value.0 * factory.value.1 * factory.value.2 else 0;
    }

    /** `apply`: charges the volume to the factory bucket and zeroes it, so a second apply charges nothing. */
    method Apply()
      requires Complete(tracker.duration)
      modifies this, tracker
      ensures tracker.duration == Tracked(old(tracker.duration), FactoryVolume, old(duration)) && duration == 0
      ensures tracker.tUsage == old(tracker.tUsage)
    {
      tracker.Track(FactoryVolume, duration);
      duration := 0;
    }
  }

  /** What the stored tags will charge: each one's bucket and duration. */
  function Charges(tags: seq<VolumeTag>): (r: seq<(VolumeType, Option<int>)>)
    reads tags
    ensures |r| == |tags| && forall i | 0 <= i < |tags| :: r[i] == (tags[i].tagType, tags[i].duration)
  {
    seq(|tags|, i reads tags requires 0 <= i < |tags| => (tags[i].tagType, tags[i].duration))
  }

  /** Every charge has a duration: every stored tag has ended. */
  predicate AllEnded(cs: seq<(VolumeType, Option<int>)>)
  {
    forall i | 0 <= i < |cs| :: cs[i].1.Some?
  }

  /** The buckets once the charges are popped off the end and applied with space 1. */
  function Drain(d: map<VolumeType, int>, cs: seq<(VolumeType, Option<int>)>): (r: map<VolumeType, int>)
    requires Complete(d) && AllEnded(cs)
    ensures Complete(r)
  {
    if cs == [] then d
    else Drain(Tracked(d, cs[|cs| - 1].0, cs[|cs| - 1].1.value), cs[..|cs| - 1])
  }

  /** Draining a charge in front of others applies it last. */
  lemma {:induction false} DrainCons(d: map<VolumeType, int>, c: (VolumeType, Option<int>), cs: seq<(VolumeType, Option<int>)>)
    requires Complete(d) && c.1.Some? && AllEnded(cs)
    ensures AllEnded([c] + cs) && Drain(d, [c] + cs) == Tracked(Drain(d, cs), c.0, c.1.value)
    decreases |cs|
  {
    var s := [c] + cs;
    assert AllEnded(s) by {
      assert forall i | 1 <= i < |s| :: s[i] == cs[i - 1];
    }
    if cs != [] {
      var e := cs[|cs| - 1];
      assert s[|s| - 1] == e;
      assert s[..|s| - 1] == [c] + cs[..|cs| - 1];
      DrainCons(Tracked(d, e.0, e.1.value), c, cs[..|cs| - 1]);
    }
  }

  /** The sum of the charges' durations. */
  function Charged(cs: seq<(VolumeType, Option<int>)>): int
    requires AllEnded(cs)
  {
    if cs == [] then 0 else Charged(cs[..|cs| - 1]) + cs[|cs| - 1].1.value
  }

  /** Draining the charges adds exactly their durations to the total. */
  lemma {:induction false} DrainTotal(d: map<VolumeType, int>, cs: seq<(VolumeType, Option<int>)>)
    requires Complete(d) && AllEnded(cs)
    ensures TotalOf(Drain(d, cs)) == TotalOf(d) + Charged(cs)
    decreases |cs|
  {
    if cs != [] {
      var c := cs[|cs| - 1];
      TrackedTotal(d, c.0, c.1.value);
      DrainTotal(Tracked(d, c.0, c.1.value), cs[..|cs| - 1]);
    }
  }

  /** `SpaceTimeVolumeTrackingContext`: a list of finished tags, plus the factory, source and active tags. */
  class Context {
    const tracker: Tracker
    var factoryTag: FactoryTag?
    var sourceTag: SourceTag?
    var currActive: VolumeTag?
    var applied: bool
    /** The list the context itself is. */
    var tags: seq<VolumeTag>

    constructor (tracker: Tracker)
      ensures this.tracker == tracker && factoryTag == null && sourceTag == null && currActive == null
      ensures !applied && tags == []
    {
      this.tracker := tracker;
      factoryTag := null;
      sourceTag := null;
      currActive := null;
      applied := false;
      tags := [];
    }

    /** Every tag of the context reports to the context's tracker. */
    ghost predicate Reports()
      reads this, factoryTag, sourceTag, tags
    {
      (factoryTag != null ==> factoryTag.tracker == tracker)
      && (sourceTag != null ==> sourceTag.tracker == tracker)
      && forall i | 0 <= i < |tags| :: tags[i].tracker == tracker
    }

    /**
     * `transition`: the active tag, if any, ends one pass later than the
     * time and joins the list; the new tag becomes the active one.  Ending
     * a tag that never started fails.
     */
    method Transition(newTag: VolumeTag?, time: int) returns (ok: bool)
      modifies this, currActive
      ensures currActive == (if ok then newTag else old(currActive))
      ensures ok <==> old(currActive) == null || old(currActive.startTime).Some?
      ensures tags == if ok && old(currActive) != null then old(tags) + [old(currActive)] else old(tags)
      ensures ok && old(currActive) != null ==> old(currActive).duration == Some((time - old(currActive.startTime).value + 1) * old(currActive).mult)
      ensures factoryTag == old(factoryTag) && sourceTag == old(sourceTag) && applied == old(applied)
    {
      if currActive != null {
        var ended := currActive.End(time, 1);
        if !ended {
          return false;
        }
        tags := tags + [currActive];
      }
      currActive := newTag;
      ok := true;
    }

    /**
     * `apply`, which may run once: the factory tag charges its volume and is
     * dropped, the source tag counts one T state, and every stored tag is
     * popped and charged, leaving the list empty.  A second apply, a missing
     * source tag or a stored tag that never ended fails.
     */
    method Apply() returns (ok: bool)
      requires Reports() && Complete(tracker.duration)
      modifies this, tracker, factoryTag, sourceTag
      ensures ok <==> !old(applied) && old(sourceTag) != null && AllEnded(old(Charges(tags)))
      ensures ok ==> applied && factoryTag == null && tags == []
      ensures ok ==> var d := if old(factoryTag) != null then Tracked(old(tracker.duration), FactoryVolume, old(factoryTag.duration)) else old(tracker.duration);
        tracker.duration == Drain(d, old(Charges(tags)))
      ensures ok ==> tracker.tUsage == Used(old(tracker.tUsage), old(sourceTag.source))
    {
      if applied {
        return false;
      }
      applied := true;
      if factoryTag != null {
        factoryTag.Apply();
      }
      factoryTag := null;
      if sourceTag == null {
        return false;
      }
      sourceTag.Apply();
      ok := DrainTags();
    }

    /** The loop of `apply`: pops every stored tag and charges it, stopping at one that never ended. */
    method DrainTags() returns (ok: bool)
      requires Reports() && Complete(tracker.duration)
      modifies this, tracker
      ensures ok <==> AllEnded(old(Charges(tags)))
      ensures ok ==> tags == [] && tracker.duration == Drain(old(tracker.duration), old(Charges(tags)))
      ensures tracker.tUsage == old(tracker.tUsage)
      ensures factoryTag == old(factoryTag) && sourceTag == old(sourceTag) && applied == old(applied)
    {
      ghost var d := tracker.duration;
      ghost var cs := Charges(tags);
      while tags != []
        invariant Complete(tracker.duration) && Reports() && |tags| <= |cs| && Charges(tags) == cs[..|tags|]
        invariant AllEnded(cs[|tags|..]) && tracker.duration == Drain(d, cs[|tags|..])
        invariant tracker.tUsage == old(tracker.tUsage)
        invariant factoryTag == old(factoryTag) && sourceTag == old(sourceTag) && applied == old(applied)
        decreases |tags|
      {
        ok := PopCharge(d, cs);
        if !ok {
          return false;
        }
      }
      ok := true;
    }

    /** One pass of that loop: the last stored tag is popped and, if it ended, charged. */
    method PopCharge(ghost d: map<VolumeType, int>, ghost cs: seq<(VolumeType, Option<int>)>) returns (ok: bool)
      requires Complete(d) && Reports() && tags != [] && |tags| <= |cs| && Charges(tags) == cs[..|tags|]
      requires AllEnded(cs[|tags|..]) && tracker.duration == Drain(d, cs[|tags|..])
      modifies this, tracker
      ensures Reports() && tags == old(tags)[..|old(tags)| - 1] && Charges(tags) == cs[..|tags|]
      ensures ok <==> cs[|tags|].1.Some?
      ensures ok ==> AllEnded(cs[|tags|..]) && tracker.duration == Drain(d, cs[|tags|..])
      ensures !ok ==> !AllEnded(cs)
      ensures Complete(tracker.duration) && tracker.tUsage == old(tracker.tUsage)
      ensures factoryTag == old(factoryTag) && sourceTag == old(sourceTag) && applied == old(applied)
    {
      var k := |tags| - 1;
      var tag := tags[k];
      assert cs[k] == (tag.tagType, tag.duration);
      tags := tags[..k];
      assert Charges(tags) == cs[..k];
      ok := tag.Apply();
      if ok {
        assert cs[k..] == [cs[k]] + cs[k + 1..];
        DrainCons(d, cs[k], cs[k + 1..]);
      } else {
        assert !cs[k].1.Some?;
      }
    }

    /** `shallow_copy`: a fresh context sharing the factory tag, with a copy of the source tag and nothing else. */
    method ShallowCopy() returns (ctx: Context)
      requires sourceTag != null
      ensures fresh(ctx) && ctx.tracker == tracker && ctx.factoryTag == factoryTag
      ensures ctx.sourceTag != null && fresh(ctx.sourceTag) && ctx.sourceTag.tracker == sourceTag.tracker && ctx.sourceTag.source == sourceTag.source
      ensures ctx.currActive == null && !ctx.applied && ctx.tags == []
    {
      ctx := new Context(tracker);
      ctx.factoryTag := factoryTag;
      var copy := sourceTag.Copy();
      ctx.sourceTag := copy;
    }
  }
}
