/**
 pb_common.c: the iterator over a message description, which wraps around at its end.

 The description array ends with a terminator whose tag is 0, so a real field has another tag.
 The pointers into the structure are not modelled: the iterator's position stands for them.
 */
module PbIterator {
  import opened Entries
  import opened PbSchema

  ghost predicate NoZeroTag(fields: seq<Field>) {
    forall i :: 0 <= i < |fields| ==> fields[i].tag != 0
  }

  /** A description and those inside it can be walked up to their terminators. */
  ghost predicate WalkableField(f: Field)
    decreases f
  {
    f.kind.Submessage? ==> Walkable(f.sub)
  }

  ghost predicate Walkable(fields: seq<Field>)
    decreases fields
  {
    NoZeroTag(fields) && forall i :: 0 <= i < |fields| ==> WalkableField(fields[i])
  }

  class FieldIter {
    const start: seq<Field>
    var pos: nat
    var requiredIndex: nat

    ghost predicate Valid()
      reads this
    {
      && NoZeroTag(start)
      && (pos < |start| || pos == |start| == 0)
      && requiredIndex == RequiredBefore(start, pos)
    }

    /** The tag the iterator points at: the terminator's when the message type is empty. */
    function Tag(): nat
      requires Valid()
      reads this
    {
      if pos < |start| then start[pos].tag else 0
    }

    constructor (fields: seq<Field>)
      requires NoZeroTag(fields)
      ensures Valid() && start == fields && pos == 0
    {
      start := fields;
      pos := 0;
      requiredIndex := 0;
    }

    /** pb_field_iter_begin: false for an empty message type. */
    method Begin() returns (some: bool)
      requires NoZeroTag(start)
      modifies this
      ensures Valid() && pos == 0 && some == (start != [])
    {
      pos := 0;
      requiredIndex := 0;
      some := start != [];
    }

    /** pb_field_iter_next: false when it wraps around. */
    method Next() returns (more: bool)
      requires Valid()
      modifies this
      ensures Valid()
      ensures more == (old(pos) + 1 < |start|)
      ensures pos == if more then old(pos) + 1 else 0
    {
      if Tag() == 0 {
        return false;
      }
      var prev := pos;
      if prev + 1 == |start| {
        more := Begin();
        return false;
      }
      pos := pos + 1;
      if start[prev].rule.Required? {
        requiredIndex := requiredIndex + 1;
      }
      return true;
    }

    /**
     pb_field_iter_find: from wherever the iterator stands, the field with the tag. When there
     is none it comes back to where it stood. Tag 0 is found in an empty message type, whose
     terminator carries it.
     */
    method FindTag(tag: nat) returns (found: bool)
      requires Valid() && UniqueTags(start)
      modifies this
      ensures Valid()
      ensures found == (Find(start, tag) < |start| || (start == [] && tag == 0))
      ensures pos == if Find(start, tag) < |start| then Find(start, tag) else old(pos)
    {
      var first := pos;
      if Tag() == tag {
        FoundHere(start, pos, tag);
        return true;
      }
      var more := Next();
      while pos != first
        invariant Valid()
        invariant first < |start| || pos == first == 0
        invariant start != [] ==> start[first].tag != tag
        invariant forall k :: 0 <= k < |start| && Between(first, k, pos) ==> start[k].tag != tag
        invariant start == [] ==> tag != 0
        decreases if pos > first then |start| - pos + first else first - pos
      {
        if Tag() == tag {
          FoundHere(start, pos, tag);
          return true;
        }
        more := Next();
      }
      assert forall k :: 0 <= k < |start| ==> start[k].tag != tag;
      return false;
    }
  }

  /** k is passed on the way from `first` to `pos`, going up and around. */
  predicate Between(first: nat, k: nat, pos: nat) {
    if pos > first then first <= k < pos else first <= k || k < pos
  }

  lemma {:induction false} FoundHere(fields: seq<Field>, i: nat, tag: nat)
    requires UniqueTags(fields) && (if i < |fields| then fields[i].tag else 0) == tag && NoZeroTag(fields)
    ensures i < |fields| ==> Find(fields, tag) == i
    ensures i >= |fields| ==> Find(fields, tag) == |fields|
  {
    if i < |fields| {
      FindIsUnique(fields, i);
    }
  }
}
