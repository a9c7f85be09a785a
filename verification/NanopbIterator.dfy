/** The field iterator: it walks the descriptors in a circle, counting required fields on the way. */
module NanopbIterator {
  import opened InternalKeys
  import opened NanopbSchema
  import opened NanopbDecode

  class FieldIter {
    const fields: MessageType
    var pos: nat
    var requiredIndex: nat

    /** The position is on a field, or on the terminator of an empty message type. */
    ghost predicate Valid()
      reads this
    {
      && (pos < |fields.fields| || (pos == 0 && fields.fields == []))
      && requiredIndex == RequiredBefore(fields, pos)
    }

    constructor (fields: MessageType)
      ensures Valid() && pos == 0 && this.fields == fields
    {
      this.fields := fields;
      pos, requiredIndex := 0, 0;
    }

    /** The number of the current field; the terminator's is zero. */
    function TagAt(): nat
      requires Valid()
      reads this
    {
      if pos < |fields.fields| then fields.fields[pos].tag else 0
    }

    /** False when the iterator has wrapped, or has nowhere to go. */
    method Next() returns (more: bool)
      requires Valid()
      modifies this
      ensures Valid()
      ensures more <==> old(pos) + 1 < |fields.fields|
      ensures pos == if more then old(pos) + 1 else 0
    {
      if fields.fields == [] {
        return false;
      }
      var previous := fields.fields[pos];
      pos := pos + 1;
      if pos == |fields.fields| {
        pos, requiredIndex := 0, 0;
        return false;
      }
      if previous.rule.Required? {
        requiredIndex := requiredIndex + 1;
      }
      return true;
    }

    /** The field numbers met on the way round from `start` to the position, the latter left out. */
    ghost predicate Passed(start: nat, tag: nat)
      reads this
    {
      forall i :: (if start <= pos then start <= i < pos else i < pos || start <= i) && 0 <= i < |fields.fields| ==> fields.fields[i].tag != tag
    }

    /** Looks for a field number, from the current field on and round. */
    method Find(tag: nat) returns (found: bool)
      requires Valid()
      requires forall i, j :: 0 <= i < j < |fields.fields| ==> fields.fields[i].tag != fields.fields[j].tag
      modifies this
      ensures Valid()
      ensures fields.fields == [] ==> (found <==> tag == 0)
      ensures fields.fields != [] ==> (found <==> FieldIndex(fields, tag).Some?)
      ensures fields.fields != [] && found ==> pos == FieldIndex(fields, tag).value
    {
      ghost var n := |fields.fields|;
      var start := pos;
      ghost var left: int := n;
      while true
        invariant Valid() && Passed(start, tag)
        invariant n > 0 ==> 0 < left <= n && left == (if start <= pos then n - (pos - start) else start - pos)
        decreases left
      {
        if TagAt() == tag {
          return true;
        }
        var more := Next();
        left := left - 1;
        if pos == start {
          break;
        }
      }
      return false;
    }
  }
}
