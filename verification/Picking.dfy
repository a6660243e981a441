/**
 Choosing the inputs of a compaction: VersionSet::PickCompaction and SetupOtherInputs, and what
 their choice guarantees about user-key ranges.
 */
module Picking {
  import opened Entries
  import opened Files
  import opened Versions
  import opened Compactions

  /** Why a compaction starts: a level over its size limit, or a file that has cost too many seeks. */
  datatype Trigger = NoTrigger | SizeTrigger(level: nat) | SeekTrigger(file: File, level: nat)

  /** Every user key of [lo, hi] lies inside some of the files. */
  ghost predicate Gapless(files: seq<File>, lo: UserKey, hi: UserKey) {
    forall k :: lo <= k <= hi ==> Covered(files, k)
  }

  /** The files of the level that meet the user-key range spanned by `span`. */
  function Meeting(level: seq<File>, span: seq<File>): seq<File>
    requires span != []
  {
    OverlapFilter(level, Some(MinUser(span)), Some(MaxUser(span)))
  }

  /** What the initial choice of level-L inputs satisfies. */
  ghost predicate Startable(v: Levels, level: nat, in0: seq<File>)
    requires in0 != [] && |v| == NUM_LEVELS
  {
    && Gapless(in0, MinUser(in0), MaxUser(in0))
    && (level == 0 ==> forall f :: f in Meeting(v[0], in0) ==> f in in0)
  }

  /** What the input lists of every picked compaction satisfy. */
  ghost predicate WellPicked(v: Levels, level: nat, in0: seq<File>, in1: seq<File>)
    requires |v| == NUM_LEVELS && level + 1 < NUM_LEVELS
  {
    && in0 != []
    && (forall f :: f in in0 ==> f in v[level])
    && in1 == Meeting(v[level + 1], in0)
    && (level == 0 ==> forall f :: f in Meeting(v[0], in0) ==> f in in0)
    && Gapless(in0 + in1, MinUser(in0 + in1), MaxUser(in0 + in1))
  }

  /** Files meeting a gapless interval extend it without a gap. */
  lemma {:induction false} ExtendGapless(base: seq<File>, extra: seq<File>, lo: UserKey, hi: UserKey)
    requires base + extra != [] && Gapless(base + extra, lo, hi)
    requires forall f :: f in base ==> lo <= f.smallest.user && f.largest.user <= hi
    requires forall f :: f in extra ==> Overlaps(f, Some(lo), Some(hi))
    ensures Gapless(base + extra, MinUser(base + extra), MaxUser(base + extra))
  {
    var all := base + extra;
    forall k | MinUser(all) <= k <= MaxUser(all) ensures Covered(all, k) {
      if k < lo {
        var f :| f in all && f.smallest.user == MinUser(all);
        assert Covers(f, k);
      } else if k > hi {
        var f :| f in all && f.largest.user == MaxUser(all);
        assert Covers(f, k);
      }
    }
  }

  lemma {:induction false} GaplessMonotone(a: seq<File>, b: seq<File>, lo: UserKey, hi: UserKey)
    requires Gapless(a, lo, hi) && forall f :: f in a ==> f in b
    ensures Gapless(b, lo, hi)
  {
    forall k | lo <= k <= hi ensures Covered(b, k) {
      assert Covered(a, k);
    }
  }

  /** The level-L+1 files meeting a gapless set of level-L files extend it without a gap. */
  lemma {:induction false} AddMeeting(v: Levels, level: nat, in0: seq<File>)
    requires |v| == NUM_LEVELS && level + 1 < NUM_LEVELS && in0 != []
    requires Startable(v, level, in0) && forall f :: f in in0 ==> f in v[level]
    ensures WellPicked(v, level, in0, Meeting(v[level + 1], in0))
  {
    GaplessMonotone(in0, in0 + Meeting(v[level + 1], in0), MinUser(in0), MaxUser(in0));
    ExtendGapless(in0, Meeting(v[level + 1], in0), MinUser(in0), MaxUser(in0));
  }

  lemma {:induction false} SpanGrows(a: seq<File>, b: seq<File>)
    requires a != [] && b != [] && forall f :: f in a ==> f in b
    ensures MinUser(b) <= MinUser(a) && MaxUser(a) <= MaxUser(b)
  {
    var lo, hi := MinUser(a), MaxUser(a);
    var f :| f in a && f.smallest.user == lo;
    var g :| g in a && g.largest.user == hi;
  }

  /** Equal counts mean equal sets: the wider span meets the very same level-L+1 files. */
  lemma {:induction false} SameMeeting(level: seq<File>, in0: seq<File>, expanded0: seq<File>)
    requires in0 != [] && expanded0 != [] && forall f :: f in in0 ==> f in expanded0
    requires |Meeting(level, expanded0)| == |Meeting(level, in0)|
    ensures Meeting(level, expanded0) == Meeting(level, in0)
  {
    SpanGrows(in0, expanded0);
    FilterGrows(level, Some(MinUser(in0)), Some(MaxUser(in0)), Some(MinUser(expanded0)), Some(MaxUser(expanded0)));
  }

  lemma {:induction false} GrownIsGapless(in0: seq<File>, in1: seq<File>, expanded0: seq<File>, lo: Bound, hi: Bound)
    requires in0 != [] && expanded0 != [] && (forall f :: f in in0 ==> f in expanded0)
    requires var all := in0 + in1;
             Gapless(all, MinUser(all), MaxUser(all))
             && lo.Some? && hi.Some? && Contains(lo, hi, Some(MinUser(all)), Some(MaxUser(all)))
             && GainCovered(expanded0, lo, hi, Some(MinUser(all)), Some(MaxUser(all)))
    requires forall f :: f in expanded0 ==> Overlaps(f, lo, hi)
    ensures var grown := expanded0 + in1; Gapless(grown, MinUser(grown), MaxUser(grown))
  {
    var all, grown := in0 + in1, in1 + expanded0;
    GaplessMonotone(all, grown, MinUser(all), MaxUser(all));
    forall k | lo.value <= k <= hi.value ensures Covered(grown, k) {
      if !InRange(k, Some(MinUser(all)), Some(MaxUser(all))) {
        assert Covered(expanded0, k);
        var f :| f in expanded0 && Covers(f, k);
        assert f in grown;
      }
    }
    assert forall f :: f in in1 ==> f in all;
    ExtendGapless(in1, expanded0, lo.value, hi.value);
    SameHull(grown, expanded0 + in1);
    GaplessMonotone(grown, expanded0 + in1, MinUser(grown), MaxUser(grown));
  }

  lemma {:induction false} InputsMeetTheirSpan(files: seq<File>, in0: seq<File>, in1: seq<File>, lo: Bound, hi: Bound)
    requires ValidFiles(files) && in0 != [] && forall f :: f in in0 ==> f in files
    requires Contains(lo, hi, Some(MinUser(in0 + in1)), Some(MaxUser(in0 + in1)))
    ensures forall f :: f in in0 ==> f in OverlapFilter(files, lo, hi)
  {
    forall f | f in in0 ensures f in OverlapFilter(files, lo, hi) {
      assert f in in0 + in1;
      FileBounds(f, f.entries[0]);
    }
  }

  /** A closed range's files meet no other file of the level. */
  lemma {:induction false} ClosedIsIsolated(files: seq<File>, lo: Bound, hi: Bound)
    requires ClosedUnder(files, lo, hi) && lo.Some? && hi.Some? && OverlapFilter(files, lo, hi) != []
    ensures var chosen := OverlapFilter(files, lo, hi);
            lo.value <= MinUser(chosen) && MaxUser(chosen) <= hi.value
            && forall f :: f in Meeting(files, chosen) ==> f in chosen
  {
    var chosen := OverlapFilter(files, lo, hi);
    var least, most := MinUser(chosen), MaxUser(chosen);
    var f :| f in chosen && f.smallest.user == least;
    var g :| g in chosen && g.largest.user == most;
  }

  /** A wider choice of level-L inputs that meets no further level-L+1 file is picked just as well. */
  lemma {:induction false} GrowKeepsPicked(v: Levels, level: nat, in0: seq<File>, in1: seq<File>,
          expanded0: seq<File>, lo: Bound, hi: Bound)
    requires |v| == NUM_LEVELS && level + 1 < NUM_LEVELS && WellPicked(v, level, in0, in1) && ValidFiles(v[level])
    requires var all := in0 + in1;
             lo.Some? && hi.Some? && Contains(lo, hi, Some(MinUser(all)), Some(MaxUser(all)))
             && GainCovered(expanded0, lo, hi, Some(MinUser(all)), Some(MaxUser(all)))
    requires expanded0 == OverlapFilter(v[level], lo, hi) && (level == 0 ==> ClosedUnder(v[level], lo, hi))
    requires expanded0 != [] && |Meeting(v[level + 1], expanded0)| == |in1|
    ensures WellPicked(v, level, expanded0, in1)
    ensures forall f :: f in in0 ==> f in expanded0
  {
    InputsMeetTheirSpan(v[level], in0, in1, lo, hi);
    SameMeeting(v[level + 1], in0, expanded0);
    GrownIsGapless(in0, in1, expanded0, lo, hi);
    if level == 0 {
      ClosedIsIsolated(v[0], lo, hi);
    }
  }

  lemma {:induction false} SameHull(a: seq<File>, b: seq<File>)
    requires a != [] && b != [] && (forall f :: f in a <==> f in b)
    ensures MinUser(a) == MinUser(b) && MaxUser(a) == MaxUser(b)
  {
  }

  predicate PastPointer(f: File, pointer: Option<InternalKey>) {
    pointer.None? || Less(pointer.value, f.largest)
  }

  /** The first file past the compaction pointer, or the first file of the level once the pointer has wrapped. */
  ghost predicate IsFirstAfter(files: seq<File>, pointer: Option<InternalKey>, f: File) {
    exists i :: 0 <= i < |files| && f == files[i]
             && (PastPointer(f, pointer) || i == 0)
             && forall j :: 0 <= j < (if PastPointer(f, pointer) then i else |files|) ==> !PastPointer(files[j],
                 pointer)
  }

  /** It is one file. */
  lemma {:induction false} FirstAfterIsUnique(files: seq<File>, pointer: Option<InternalKey>, f: File, g: File)
    requires IsFirstAfter(files, pointer, f) && IsFirstAfter(files, pointer, g)
    ensures f == g
  {
  }

  /** The picks of a level go round: a file is not picked again while some file lies past the pointer it left. */
  lemma {:induction false} PickGoesOn(files: seq<File>, pointer: InternalKey, before: File, f: File)
    requires IsFirstAfter(files, Some(pointer), f) && AtMost(before.largest, pointer)
    requires exists g :: g in files && Less(pointer, g.largest)
    ensures f != before && Less(pointer, f.largest)
  {
    var g :| g in files && Less(pointer, g.largest);
    assert PastPointer(g, Some(pointer));
  }

  method FirstAfterPointer(files: seq<File>, pointer: Option<InternalKey>) returns (f: File)
    requires files != []
    ensures IsFirstAfter(files, pointer, f) && f in files
  {
    for i := 0 to |files|
      invariant forall j :: 0 <= j < i ==> !PastPointer(files[j], pointer)
    {
      if PastPointer(files[i], pointer) {
        return files[i];
      }
    }
    f := files[0];
  }

  /**
   The files GetOverlappingInputs finds for the user keys `span` reaches over: those meeting them, at level 0 those
   meeting the least closed range around them.
   */
  ghost predicate IsExpansion(files: seq<File>, level: nat, span: seq<File>, expanded: seq<File>)
    requires span != []
  {
    if level > 0 then expanded == Meeting(files, span)
    else exists lo, hi :: LeastClosed(files, lo, hi, Some(MinUser(span)), Some(MaxUser(span)))
                          && expanded == OverlapFilter(files, lo, hi)
  }

  lemma {:induction false} ExpansionIsUnique(files: seq<File>, level: nat, span: seq<File>, a: seq<File>, b: seq<File>)
    requires span != [] && IsExpansion(files, level, span, a) && IsExpansion(files, level, span, b)
    ensures a == b
  {
    hide MinUser;
    hide MaxUser;
    hide OverlapFilter;
    if level == 0 {
      var lo, hi := Some(MinUser(span)), Some(MaxUser(span));
      var lo1, hi1 :| LeastClosed(files, lo1, hi1, lo, hi) && a == OverlapFilter(files, lo1, hi1);
      var lo2, hi2 :| LeastClosed(files, lo2, hi2, lo, hi) && b == OverlapFilter(files, lo2, hi2);
      assert Contains(lo1, hi1, lo2, hi2) && Contains(lo2, hi2, lo1, hi1);
    }
  }

  /** More files than before, of less than the limit together, and level L+1 adds none. */
  ghost predicate MayGrow(v: Levels, level: nat, in0: seq<File>, in1: seq<File>, expanded: seq<File>, limit: nat)
    requires level + 1 < |v|
  {
    && |expanded| > |in0|
    && TotalFileSize(in1) + TotalFileSize(expanded) < limit
    && |Meeting(v[level + 1], expanded)| == |in1|
  }

  /**
   Exactly when the level-L inputs grow, and to what: level L+1 has inputs, and all level-L files that the inputs of
   both levels reach may replace in0.
   */
  ghost predicate GrownFrom(v: Levels, level: nat, in0: seq<File>, in1: seq<File>, limit: nat, out0: seq<File>)
    requires level + 1 < |v|
  {
    if in1 == [] then out0 == in0
    else exists expanded :: IsExpansion(v[level], level, in0 + in1, expanded)
                            && out0 == if MayGrow(v, level, in0, in1, expanded, limit) then expanded else in0
  }

  /** There is one such choice. */
  lemma {:induction false} GrownIsUnique(v: Levels, level: nat, in0: seq<File>, in1: seq<File>, limit: nat,
          a: seq<File>, b: seq<File>)
    requires level + 1 < |v| && GrownFrom(v, level, in0, in1, limit, a) && GrownFrom(v, level, in0, in1, limit, b)
    ensures a == b
  {
    hide IsExpansion;
    hide MayGrow;
    if in1 != [] {
      var e :| IsExpansion(v[level], level, in0 + in1, e)
               && a == if MayGrow(v, level, in0, in1, e, limit) then e else in0;
      var f :| IsExpansion(v[level], level, in0 + in1, f)
               && b == if MayGrow(v, level, in0, in1, f, limit) then f else in0;
      ExpansionIsUnique(v[level], level, in0 + in1, e, f);
    }
  }

  /** The choice the picked file starts: itself, at level 0 with all files of the least closed range around it. */
  ghost predicate IsStart(files: seq<File>, level: nat, picked: File, in0: seq<File>) {
    if level > 0 then in0 == [picked] else IsExpansion(files, 0, [picked], in0)
  }

  /** Where the level-L inputs of a compaction come from: the choice the picked file starts, grown if it may be. */
  ghost predicate InputsFrom(c: Compaction, picked: File, limit: nat)
    requires c.level + 1 < |c.inputVersion|
  {
    exists in0 :: IsStart(c.inputVersion[c.level], c.level, picked, in0)
                  && in0 != [] && c.in1 == Meeting(c.inputVersion[c.level + 1], in0)
                  && GrownFrom(c.inputVersion, c.level, in0, c.in1, limit, c.in0)
  }

  /** The picked file is an input; above level 0 it stays the only one of its level unless level L+1 has inputs. */
  ghost predicate StartsFrom(c: Compaction, picked: File) {
    picked in c.in0 && (c.level > 0 && c.in1 == [] ==> c.in0 == [picked])
  }

  class VersionSet {
    var current: Version
    var compactPointer: seq<Option<InternalKey>>
    const targetFileSize: nat

    constructor (current: Version, targetFileSize: nat)
      ensures this.current == current && this.targetFileSize == targetFileSize
      ensures compactPointer == seq(NUM_LEVELS, _ => None)
    {
      this.current := current;
      this.targetFileSize := targetFileSize;
      this.compactPointer := seq(NUM_LEVELS, _ => None);
    }

    function MaxGrandParentOverlapBytes(): nat { 10 * targetFileSize }
    function ExpandedCompactionByteSizeLimit(): nat { 25 * targetFileSize }

    /** The growth step of SetupOtherInputs: more level-L inputs, if that pulls in no further level-L+1 file. */
    method Grow(level: nat, in0: seq<File>, in1: seq<File>) returns (out0: seq<File>)
      requires ValidLevels(current.files) && level + 1 < NUM_LEVELS && WellPicked(current.files, level, in0, in1)
      ensures WellPicked(current.files, level, out0, in1)
      ensures forall f :: f in in0 ==> f in out0
      ensures in1 == [] ==> out0 == in0
      ensures GrownFrom(current.files, level, in0, in1, ExpandedCompactionByteSizeLimit(), out0)
      ensures |in0| <= |current.files[level]| ==> |out0| <= |current.files[level]|
    {
      hide WellPicked;
      hide ValidFiles;
      hide Gapless;
      hide IsRange;
      hide OverlapFilter;
      hide GainCovered;
      hide MinUser;
      hide MaxUser;
      out0 := in0;
      if in1 == [] {
        return;
      }
      var allStart, allLimit := GetRange(in0 + in1);
      RangeUserKeys(in0 + in1, allStart, allLimit);
      var expanded0, lo, hi := GetOverlappingInputs(level, current.files[level], Some(allStart.user),
          Some(allLimit.user));
      assert IsExpansion(current.files[level], level, in0 + in1, expanded0);
      if |expanded0| > |in0| && TotalFileSize(in1) + TotalFileSize(expanded0) < ExpandedCompactionByteSizeLimit() {
        var newStart, newLimit := GetRange(expanded0);
        RangeUserKeys(expanded0, newStart, newLimit);
        var expanded1, _, _ := GetOverlappingInputs(level + 1, current.files[level + 1], Some(newStart.user),
            Some(newLimit.user));
        if |expanded1| == |in1| {
          GrowKeepsPicked(current.files, level, in0, in1, expanded0, lo, hi);
          out0 := expanded0;
        }
      }
    }

    /** The level-L+2 files meeting the whole compaction range. */
    method Grandparents(level: nat, inputs: seq<File>) returns (files: seq<File>)
      requires |current.files| == NUM_LEVELS && inputs != []
      ensures files == if level + 2 < NUM_LEVELS then Meeting(current.files[level + 2], inputs) else []
    {
      var allStart, allLimit := GetRange(inputs);
      RangeUserKeys(inputs, allStart, allLimit);
      files := [];
      if level + 2 < NUM_LEVELS {
        ghost var lo, hi;
        files, lo, hi := GetOverlappingInputs(level + 2, current.files[level + 2], Some(allStart.user),
            Some(allLimit.user));
      }
    }

    /**
     version_set.cc VersionSet::SetupOtherInputs: the level-L+1 inputs and the grandparents of a choice of
     level-L inputs, after the growth step.
     */
    method SetupOtherInputs(level: nat, in0: seq<File>) returns (c: Compaction)
      requires ValidLevels(current.files) && level + 1 < NUM_LEVELS && |compactPointer| == NUM_LEVELS
      requires in0 != [] && (forall f :: f in in0 ==> f in current.files[level])
      requires Startable(current.files, level, in0)
      modifies this`compactPointer
      ensures fresh(c) && c.Fresh() && c.level == level && c.inputVersion == current.files
      ensures c.in1 == Meeting(current.files[level + 1], in0)
      ensures WellPicked(current.files, level, c.in0, c.in1)
      ensures forall f :: f in in0 ==> f in c.in0
      ensures c.in1 == [] ==> c.in0 == in0
      ensures GrownFrom(current.files, level, in0, c.in1, ExpandedCompactionByteSizeLimit(), c.in0)
      ensures |in0| <= |current.files[level]| ==> |c.in0| <= |current.files[level]|
      ensures c.grandparents == if level + 2 < NUM_LEVELS then Meeting(current.files[level + 2], c.in0 + c.in1) else []
      ensures |compactPointer| == NUM_LEVELS
      ensures exists s, l :: IsRange(c.in0, s, l) && compactPointer == old(compactPointer)[level := Some(l)]
    {
      hide WellPicked;
      hide Startable;
      hide ValidFiles;
      hide IsRange;
      hide MinUser;
      hide MaxUser;
      hide OverlapFilter;
      hide GrownFrom;
      var smallest, largest := GetRange(in0);
      RangeUserKeys(in0, smallest, largest);
      var in1, _, _ := GetOverlappingInputs(level + 1, current.files[level + 1], Some(smallest.user),
          Some(largest.user));
      AddMeeting(current.files, level, in0);
      var grown := Grow(level, in0, in1);
      smallest, largest := GetRange(grown);
      var grandparents := Grandparents(level, grown + in1);
      compactPointer := compactPointer[level := Some(largest)];
      c := new Compaction(current.files, level, grown, in1, grandparents, targetFileSize);
    }

    /** The picked file; at level 0 with everything it overlaps. */
    method StartingInputs(level: nat, picked: File) returns (in0: seq<File>)
      requires ValidLevels(current.files) && level + 1 < NUM_LEVELS && picked in current.files[level]
      ensures in0 != [] && picked in in0 && (forall f :: f in in0 ==> f in current.files[level])
      ensures Startable(current.files, level, in0) && (level > 0 ==> in0 == [picked])
      ensures IsStart(current.files[level], level, picked, in0)
      ensures |in0| <= |current.files[level]|
    {
      in0 := [picked];
      SingleIsGapless(current.files[level], picked);
      if level == 0 {
        var smallest, largest := GetRange(in0);
        RangeUserKeys(in0, smallest, largest);
        ghost var lo, hi;
        in0, lo, hi := GetOverlappingInputs(0, current.files[0], Some(smallest.user), Some(largest.user));
        LevelZeroPick(current.files[0], picked, lo, hi);
      }
    }

    /** The compaction of the picked file. */
    method CompactionOf(level: nat, picked: File) returns (c: Compaction)
      requires ValidLevels(current.files) && |compactPointer| == NUM_LEVELS
      requires level + 1 < NUM_LEVELS && picked in current.files[level]
      modifies this`compactPointer
      ensures |compactPointer| == NUM_LEVELS
      ensures fresh(c) && c.Fresh() && c.level == level && c.inputVersion == current.files
      ensures WellPicked(current.files, level, c.in0, c.in1) && |c.in0| <= |current.files[level]|
      ensures StartsFrom(c, picked) && InputsFrom(c, picked, ExpandedCompactionByteSizeLimit())
      ensures exists s, l :: IsRange(c.in0, s, l) && compactPointer == old(compactPointer)[level := Some(l)]
      ensures c.grandparents == if level + 2 < NUM_LEVELS then Meeting(current.files[level + 2], c.in0 + c.in1) else []
    {
      hide *;
      LevelsAreThere(current.files);
      var in0 := StartingInputs(level, picked);
      c := SetupOtherInputs(level, in0);
      InputsLead(c, picked, in0, ExpandedCompactionByteSizeLimit());
    }

    /** version_set.cc VersionSet::PickCompaction. */
    method PickCompaction(trigger: Trigger) returns (c: Compaction?)
      requires ValidLevels(current.files) && |compactPointer| == NUM_LEVELS
      requires trigger.SizeTrigger? ==> trigger.level + 1 < NUM_LEVELS && current.files[trigger.level] != []
      requires trigger.SeekTrigger? ==> trigger.level + 1 < NUM_LEVELS && trigger.file in current.files[trigger.level]
      modifies this`compactPointer
      ensures |compactPointer| == NUM_LEVELS
      ensures c == null <==> trigger.NoTrigger?
      ensures c == null ==> compactPointer == old(compactPointer)
      ensures c != null ==>
                && fresh(c) && c.Fresh() && c.level == trigger.level && c.inputVersion == current.files
                && WellPicked(current.files, c.level, c.in0, c.in1) && |c.in0| <= |current.files[c.level]|
                && c.grandparents ==
                     (if c.level + 2 < NUM_LEVELS then Meeting(current.files[c.level + 2], c.in0 + c.in1) else [])
                && (exists s, l :: IsRange(c.in0, s, l) && compactPointer == old(compactPointer)[c.level := Some(l)])
                && (trigger.SeekTrigger? ==>
                      StartsFrom(c, trigger.file) && InputsFrom(c, trigger.file, ExpandedCompactionByteSizeLimit()))
                && (trigger.SizeTrigger? ==>
                      exists f :: IsFirstAfter(current.files[c.level], old(compactPointer)[c.level], f)
                                  && StartsFrom(c, f) && InputsFrom(c, f, ExpandedCompactionByteSizeLimit()))
    {
      if trigger.NoTrigger? {
        return null;
      }
      hide *;
      LevelsAreThere(current.files);
      var level := trigger.level;
      var picked: File;
      if trigger.SizeTrigger? {
        picked := FirstAfterPointer(current.files[level], compactPointer[level]);
      } else {
        picked := trigger.file;
      }
      c := CompactionOf(level, picked);
    }
  }

  lemma {:induction false} LevelsAreThere(v: Levels)
    requires ValidLevels(v)
    ensures |v| == NUM_LEVELS
  {
  }

  lemma {:induction false} InputsLead(c: Compaction, picked: File, in0: seq<File>, limit: nat)
    requires c.level + 1 < |c.inputVersion| && in0 != [] && c.in1 == Meeting(c.inputVersion[c.level + 1], in0)
    requires IsStart(c.inputVersion[c.level], c.level, picked, in0) && picked in in0
    requires GrownFrom(c.inputVersion, c.level, in0, c.in1, limit, c.in0)
    requires (forall f :: f in in0 ==> f in c.in0) && (c.level > 0 ==> in0 == [picked])
    ensures InputsFrom(c, picked, limit) && StartsFrom(c, picked)
  {
    hide Meeting;
  }

  lemma {:induction false} SingleIsGapless(files: seq<File>, f: File)
    requires ValidFiles(files) && f in files
    ensures Gapless([f], MinUser([f]), MaxUser([f])) && f.smallest.user <= f.largest.user
  {
    FileBounds(f, f.entries[0]);
    forall k | MinUser([f]) <= k <= MaxUser([f]) ensures Covered([f], k) {
      assert Covers(f, k);
    }
  }

  /** The closed range grown from one level-0 file is gapless and isolated. */
  lemma {:induction false} LevelZeroPick(files: seq<File>, picked: File, lo: Bound, hi: Bound)
    requires picked in files && picked.smallest.user <= picked.largest.user
    requires LeastClosed(files, lo, hi, Some(picked.smallest.user), Some(picked.largest.user))
    requires GainCovered(OverlapFilter(files, lo, hi), lo, hi, Some(picked.smallest.user), Some(picked.largest.user))
    ensures var in0 := OverlapFilter(files, lo, hi);
            && picked in in0 && Gapless(in0, MinUser(in0), MaxUser(in0))
            && forall f :: f in Meeting(files, in0) ==> f in in0
  {
    var in0 := OverlapFilter(files, lo, hi);
    assert picked in in0;
    ClosedIsIsolated(files, lo, hi);
    forall k | MinUser(in0) <= k <= MaxUser(in0) ensures Covered(in0, k) {
      if InRange(k, Some(picked.smallest.user), Some(picked.largest.user)) {
        assert Covers(picked, k);
      }
    }
  }

  /** What a trivial move moves: one file that meets no file of the next level and little of the one after. */
  lemma {:induction false} MoveIsCheap(c: Compaction)
    requires |c.inputVersion| == NUM_LEVELS && c.level + 1 < NUM_LEVELS
    requires WellPicked(c.inputVersion, c.level, c.in0, c.in1)
    requires c.level + 2 < NUM_LEVELS ==> c.grandparents == Meeting(c.inputVersion[c.level + 2], c.in0 + c.in1)
    requires c.IsTrivialMove()
    ensures c.in0 == [c.in0[0]] && Meeting(c.inputVersion[c.level + 1], [c.in0[0]]) == []
    ensures c.level + 2 < NUM_LEVELS ==>
              TotalFileSize(Meeting(c.inputVersion[c.level + 2], [c.in0[0]])) <= 10 * c.targetFileSize
  {
    hide Meeting;
    assert c.in0 == [c.in0[0]] && c.in0 + c.in1 == c.in0;
  }
}
