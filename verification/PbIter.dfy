/** The field iterator of nanopb: it is advanced incrementally and wraps around, and
    always shows what a walk from the start of the descriptor array would show. */
module PbIter {
  import opened PbSchema

  // --------------------------------------------------- the walk from the start

  /** Bytes the content of one descriptor takes in the struct. */
  function StoredSize(f: Field): nat {
    if f.htype.Repeated? then f.dataSize * f.arraySize else f.dataSize
  }

  /** Address of the content of descriptor `i` in the struct at `base`. */
  function DataAddress(fields: seq<Field>, base: int, i: nat): int
    requires i < |fields|
  {
    if i == 0 then base + fields[0].dataOffset
    else if Continues(fields, i) then DataAddress(fields, base, i - 1)
    else DataAddress(fields, base, i - 1) + StoredSize(fields[i - 1]) + fields[i].dataOffset
  }

  /** Address of the has_, count or which_ member of descriptor `i`. */
  function SizeAddress(fields: seq<Field>, base: int, i: nat): int
    requires i < |fields|
  {
    if Continues(fields, i) then SizeAddress(fields, base, i - 1)
    else DataAddress(fields, base, i) + fields[i].sizeOffset
  }

  /** All members of a union share one content and one which_ member. */
  lemma {:induction false} UnionMembersShareStorage(fields: seq<Field>, base: int, i: nat)
    requires i < |fields|
    ensures DataAddress(fields, base, i) == DataAddress(fields, base, Head(fields, i))
    ensures SizeAddress(fields, base, i) == SizeAddress(fields, base, Head(fields, i))
  {
    if Continues(fields, i) {
      UnionMembersShareStorage(fields, base, i - 1);
    }
  }

  /** Outside of unions the contents lie one behind the other, arrays with all their items: what
      descriptor `i` holds ends in front of what a later one holds. */
  lemma {:induction false} ContentsDoNotOverlap(fields: seq<Field>, base: int, i: nat, j: nat)
    requires i < j < |fields| && forall k :: i <= k < j ==> !fields[k].htype.OneOf?
    ensures base + fields[0].dataOffset <= DataAddress(fields, base, i)
    ensures var items := if fields[i].htype.Repeated? then fields[i].arraySize else 1;
            DataAddress(fields, base, i) + fields[i].dataSize * items <= DataAddress(fields, base, j)
    decreases j
  {
    StartsBehind(fields, base, i);
    if j > i + 1 {
      ContentsDoNotOverlap(fields, base, i, j - 1);
    }
  }

  lemma {:induction false} StartsBehind(fields: seq<Field>, base: int, i: nat)
    requires i < |fields|
    ensures DataAddress(fields, base, i) >= base + fields[0].dataOffset
  {
    if i > 0 {
      StartsBehind(fields, base, i - 1);
    }
  }

  // ------------------------------------------------------------------- search

  predicate Matches(f: Field, tag: nat) {
    f.tag == tag && !f.ltype.Extension?
  }

  function Succ(fields: seq<Field>, pos: nat): (r: nat)
    requires pos < |fields|
    ensures r < |fields|
  {
    if pos + 1 < |fields| then pos + 1 else 0
  }

  /** The first match among `left` descriptors from `pos` on, going around at the end. */
  function Search(fields: seq<Field>, pos: nat, tag: nat, left: nat): (r: Result<nat>)
    requires pos < |fields|
    ensures r.Ok? ==> r.value < |fields| && Matches(fields[r.value], tag)
    decreases left
  {
    if left == 0 then Error
    else if Matches(fields[pos], tag) then Ok(pos)
    else Search(fields, Succ(fields, pos), tag, left - 1)
  }

  /** The descriptor `pb_field_iter_find` stops at when it starts at `pos`. */
  function Find(fields: seq<Field>, pos: nat, tag: nat): (r: Result<nat>)
    requires pos < |fields|
    ensures r.Ok? ==> r.value < |fields| && Matches(fields[r.value], tag)
  {
    Search(fields, pos, tag, |fields|)
  }

  /** A match at any distance within the search makes the search succeed. */
  lemma {:induction false} SearchReaches(fields: seq<Field>, pos: nat, tag: nat, left: nat, i: nat)
    requires pos < |fields| && i < |fields| && Matches(fields[i], tag)
    requires if pos <= i then i - pos < left else |fields| - pos + i < left
    ensures Search(fields, pos, tag, left).Ok?
    decreases left
  {
    if !Matches(fields[pos], tag) {
      SearchReaches(fields, Succ(fields, pos), tag, left - 1, i);
    }
  }

  predicate UniqueTags(fields: seq<Field>) {
    && (forall i :: 0 <= i < |fields| ==> fields[i].tag > 0)
    && (forall i, j :: 0 <= i < j < |fields| ==> fields[i].tag != fields[j].tag)
  }

  /** Wherever the iterator was left, a search succeeds exactly when some descriptor
      other than an extension placeholder has the tag. */
  lemma FindSucceedsIff(fields: seq<Field>, pos: nat, tag: nat)
    requires pos < |fields|
    ensures Find(fields, pos, tag).Ok? <==> exists i :: 0 <= i < |fields| && Matches(fields[i], tag)
  {
    if i :| 0 <= i < |fields| && Matches(fields[i], tag) {
      SearchReaches(fields, pos, tag, |fields|, i);
    }
  }

  /** With unique tags the result does not depend on where the iterator was left. */
  lemma FindIsPositionFree(fields: seq<Field>, pos: nat, pos': nat, tag: nat)
    requires pos < |fields| && pos' < |fields| && UniqueTags(fields)
    ensures Find(fields, pos, tag) == Find(fields, pos', tag)
  {
    var r, r' := Find(fields, pos, tag), Find(fields, pos', tag);
    if r.Ok? {
      SearchReaches(fields, pos', tag, |fields|, r.value);
      assert fields[r.value].tag == fields[r'.value].tag;
    } else if r'.Ok? {
      SearchReaches(fields, pos, tag, |fields|, r'.value);
    }
  }

  /** With unique tags, searching for a field's own tag finds that field. */
  lemma FindOwnTag(fields: seq<Field>, pos: nat, i: nat)
    requires pos < |fields| && i < |fields| && UniqueTags(fields) && !fields[i].ltype.Extension?
    ensures Find(fields, pos, fields[i].tag) == Ok(i)
  {
    SearchReaches(fields, pos, fields[i].tag, |fields|, i);
    var j := Find(fields, pos, fields[i].tag).value;
    assert fields[j].tag == fields[i].tag;
  }

  /** The first extension placeholder from `pos` on, as `find_extension_field` looks for it. */
  function SearchExtension(fields: seq<Field>, pos: nat, left: nat): (r: Result<nat>)
    requires pos < |fields|
    ensures r.Ok? ==> r.value < |fields| && fields[r.value].ltype.Extension?
    decreases left
  {
    if left == 0 then Error
    else if fields[pos].ltype.Extension? then Ok(pos)
    else SearchExtension(fields, Succ(fields, pos), left - 1)
  }

  /** From any position, a placeholder is found if and only if there is one, and none is passed over. */
  lemma {:induction false} ExtensionIsFirst(fields: seq<Field>, pos: nat, left: nat)
    requires pos < |fields| && left <= |fields|
    ensures var r := SearchExtension(fields, pos, left);
            forall i: nat :: i < |fields| && fields[i].ltype.Extension? && Distance(fields, pos, i) < left ==>
              r.Ok? && Distance(fields, pos, r.value) <= Distance(fields, pos, i)
    decreases left
  {
    if left > 0 && !fields[pos].ltype.Extension? {
      var next := Succ(fields, pos);
      ExtensionIsFirst(fields, next, left - 1);
      forall i: nat | i < |fields| && i != pos
        ensures Distance(fields, pos, i) == Distance(fields, next, i) + 1
      {
      }
    }
  }

  /** How many steps of the iterator lead from one descriptor to another. */
  function Distance(fields: seq<Field>, pos: nat, i: nat): (d: nat)
    requires pos < |fields| && i < |fields|
    ensures d < |fields|
  {
    if pos <= i then i - pos else |fields| - pos + i
  }

  // ------------------------------------------------------------ the iterator

  /** `pb_field_iter_t`. The descriptor array ends with a terminator of tag 0, which
      is at index |fields|; the iterator rests there only when there is nothing else. */
  class FieldIter {
    const fields: seq<Field>
    const base: int
    var pos: nat
    var pData: int
    var pSize: int
    var requiredFieldIndex: nat

    /** What the iterator shows is what a walk from the start shows. */
    ghost predicate Valid()
      reads this
    {
      if fields == [] then
        pos == 0 && pData == base && pSize == base && requiredFieldIndex == 0
      else
        && pos < |fields|
        && pData == DataAddress(fields, base, pos)
        && pSize == SizeAddress(fields, base, pos)
        && requiredFieldIndex == RequiredBefore(fields, pos)
    }

    constructor (fields: seq<Field>, base: int)
      ensures Valid() && this.fields == fields && this.base == base && pos == 0
    {
      this.fields, this.base := fields, base;
      new;
      Begin();
    }

    method Begin()
      modifies this
      ensures Valid() && pos == 0
    {
      pos := 0;
      requiredFieldIndex := 0;
      pData := base + if fields == [] then 0 else fields[0].dataOffset;
      pSize := pData + if fields == [] then 0 else fields[0].sizeOffset;
    }

    method Next() returns (more: bool)
      requires Valid()
      modifies this
      ensures Valid()
      ensures fields != [] ==> pos == Succ(fields, old(pos))
      ensures fields == [] ==> pos == old(pos)
      ensures more <==> old(pos) + 1 < |fields|
    {
      if fields == [] {
        return false;
      }
      var prev := fields[pos];
      pos := pos + 1;
      if pos == |fields| {
        Begin();
        return false;
      }
      var prevSize := prev.dataSize;
      if prev.htype.OneOf? && fields[pos].htype.OneOf? && fields[pos].dataOffset == PB_SIZE_MAX {
        return true;
      } else if prev.htype.Repeated? {
        prevSize := prevSize * prev.arraySize;
      }
      if prev.htype.Required? {
        requiredFieldIndex := requiredFieldIndex + 1;
      }
      pData := pData + prevSize + fields[pos].dataOffset;
      pSize := pData + fields[pos].sizeOffset;
      return true;
    }

    /** An empty message type holds only the terminator, which answers to tag 0. */
    method FindTag(tag: nat) returns (found: bool)
      requires Valid()
      modifies this
      ensures Valid()
      ensures fields != [] ==>
                && found == Find(fields, old(pos), tag).Ok?
                && pos == if found then Find(fields, old(pos), tag).value else old(pos)
      ensures fields == [] ==> pos == 0 && (found <==> tag == 0)
    {
      var start := pos;
      if fields == [] {
        return tag == 0;
      }
      var left := |fields|;
      while true
        invariant Valid() && 0 < left <= |fields|
        invariant pos == if start + |fields| - left < |fields| then start + |fields| - left else start - left
        invariant Find(fields, start, tag) == Search(fields, pos, tag, left)
        decreases left
      {
        if fields[pos].tag == tag && !fields[pos].ltype.Extension? {
          return true;
        }
        var more := Next();
        left := left - 1;
        if pos == start {
          return false;
        }
      }
    }
  }
}
