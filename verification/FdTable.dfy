/** The tag table as one thread uses it, in place: entries that are stored to, and an overflow table
    that comes into being on the first access it is needed for. */
module FdTable {
  import opened SwapTypes
  import opened FdTag

  class FdSanTable {
    const entries: array<Tag>
    var overflow: array?<Tag>

    ghost predicate Valid()
      reads this
    {
      && entries.Length == FD_SAN_TABLE_SIZE
      && (overflow != null ==> overflow.Length == ALIGNED_COUNT && overflow != entries)
    }

    ghost function TagAt(fd: int): Tag
      requires Valid() && InRange(fd)
      reads this, entries, overflow
    {
      if fd < FD_SAN_TABLE_SIZE then entries[fd]
      else if overflow == null then 0
      else overflow[fd - FD_SAN_TABLE_SIZE]
    }

    constructor ()
      ensures Valid() && fresh(entries) && overflow == null
      ensures forall fd :: InRange(fd) ==> TagAt(fd) == 0
    {
      entries := new Tag[FD_SAN_TABLE_SIZE](_ => 0);
      overflow := null;
    }

    /** Makes sure that the entry of a descriptor in range is there; `maps` tells whether a mapping
        would succeed. */
    method GetFsFdEntry(idx: nat, maps: bool) returns (found: bool)
      requires Valid()
      modifies this
      ensures Valid() && (old(overflow) != null ==> overflow == old(overflow))
      ensures overflow != old(overflow) ==> maps && fresh(overflow)
      ensures found <==> idx < FD_SAN_OVERFLOW_END && (idx < FD_SAN_TABLE_SIZE || overflow != null)
      ensures idx >= FD_SAN_TABLE_SIZE && maps && idx < FD_SAN_OVERFLOW_END ==> found
      ensures forall fd :: InRange(fd) ==> TagAt(fd) == old(TagAt(fd))
    {
      if idx >= FD_SAN_OVERFLOW_END {
        return false;
      }
      if idx < FD_SAN_TABLE_SIZE {
        return true;
      }
      if overflow == null {
        if !maps {
          return false;
        }
        overflow := new Tag[ALIGNED_COUNT](_ => 0);
      }
      var offset := idx - FD_SAN_TABLE_SIZE;
      if overflow.Length <= offset {
        return false;
      }
      return true;
    }

    method GetFdTag(fd: int, maps: bool) returns (tag: Tag)
      requires Valid()
      modifies this
      ensures Valid()
      ensures tag == if InRange(fd) then old(TagAt(fd)) else 0
      ensures forall f :: InRange(f) ==> TagAt(f) == old(TagAt(f))
    {
      if fd < 0 {
        return 0;
      }
      var found := GetFsFdEntry(fd, maps);
      if !found {
        return 0;
      }
      tag := if fd < FD_SAN_TABLE_SIZE then entries[fd] else overflow[fd - FD_SAN_TABLE_SIZE];
    }

    method SetFdTag(fd: int, tag: Tag, maps: bool)
      requires Valid()
      modifies this, entries, overflow
      ensures Valid()
      ensures forall f :: InRange(f) ==>
                TagAt(f) == if f == fd && (maps || fd < FD_SAN_TABLE_SIZE || old(overflow) != null)
                            then tag else old(TagAt(f))
    {
      if fd < 0 {
        return;
      }
      var found := GetFsFdEntry(fd, maps);
      if !found {
        return;
      }
      if fd < FD_SAN_TABLE_SIZE {
        entries[fd] := tag;
      } else {
        overflow[fd - FD_SAN_TABLE_SIZE] := tag;
      }
    }
  }
}
