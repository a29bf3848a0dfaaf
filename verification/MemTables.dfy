/** The in-memory table: a skip list of rows with size accounting and freezing. */
module MemTables {
  import opened Keys
  import opened SortedEntries
  import opened SkipLists
  import opened Values

  /** `tombstone` marks a deleted key. */
  datatype Row = Row(version: nat, columns: map<Str, Value>, tombstone: bool)

  function EstimateRowSize(row: Row): nat {
    8 + 88 * |row.columns|
  }

  function EntrySize(e: Entry<Row>): nat {
    |e.key| + EstimateRowSize(e.value)
  }

  function TotalSize(s: seq<Entry<Row>>): nat {
    if s == [] then 0 else TotalSize(s[..|s| - 1]) + EntrySize(s[|s| - 1])
  }

  lemma {:induction false} TotalSizeOfParts(s: seq<Entry<Row>>, t: seq<Entry<Row>>)
    ensures TotalSize(s + t) == TotalSize(s) + TotalSize(t)
  {
    if t == [] {
      assert s + t == s;
    } else {
      assert (s + t)[..|s + t| - 1] == s + t[..|t| - 1];
      TotalSizeOfParts(s, t[..|t| - 1]);
    }
  }

  function SizeAt(s: seq<Entry<Row>>, key: Key): nat {
    match Lookup(s, key)
    case None => 0
    case Some(row) => EntrySize(Entry(key, row))
  }

  /** A put adds the new entry's size and takes off the one it overwrites; a delete takes
      off the removed one. */
  lemma SizeAfterUpdate(s: seq<Entry<Row>>, key: Key, row: Row)
    ensures TotalSize(Upsert(s, key, row)) == TotalSize(s) + EntrySize(Entry(key, row)) - SizeAt(s, key)
    ensures TotalSize(Remove(s, key)) == TotalSize(s) - SizeAt(s, key)
  {
    hide Less, LowerBound, TotalSize, EntrySize;
    var i := LowerBound(s, key);
    var e := Entry(key, row);
    if i < |s| && s[i].key == key {
      assert Upsert(s, key, row) == s[..i] + [e] + s[i + 1..];
      assert s == s[..i] + [s[i]] + s[i + 1..];
      SizeAround(s[..i], e, s[i + 1..]);
      SizeAround(s[..i], s[i], s[i + 1..]);
    } else {
      assert s == s[..i] + s[i..];
      SizeAround(s[..i], e, s[i..]);
    }
  }

  lemma SizeAround(before: seq<Entry<Row>>, e: Entry<Row>, after: seq<Entry<Row>>)
    ensures TotalSize(before + [e] + after) == TotalSize(before) + EntrySize(e) + TotalSize(after)
    ensures TotalSize(before + after) == TotalSize(before) + TotalSize(after)
  {
    TotalSizeOfParts(before + [e], after);
    TotalSizeOfParts(before, [e]);
    TotalSizeOfParts(before, after);
    assert [e][..0] == [];
  }

  datatype PutResult = Stored(was: Option<Row>) | ReadOnly

  class MemTable {
    var tree: SkipList<Row>
    var size: int
    var frozen: bool
    const maxSize: int

    ghost predicate Valid()
      reads this, tree, tree.repr
    {
      tree.Valid() && size == TotalSize(tree.contents)
    }

    ghost function Contents(): seq<Entry<Row>>
      reads this, tree
    {
      tree.contents
    }

    constructor (maxSize: int)
      ensures Valid() && Contents() == [] && !frozen && this.maxSize == maxSize
      ensures fresh(tree) && fresh(tree.prev) && fresh(tree.repr)
    {
      tree := new SkipList();
      size, frozen, this.maxSize := 0, false, maxSize;
    }

    method Put(key: Key, row: Row, rnd: nat) returns (result: PutResult)
      requires Valid() && rnd < MAX_LEVEL
      modifies this`size, tree, tree.prev, tree.repr
      ensures Valid() && fresh(tree.repr - old(tree.repr)) && tree.prev == old(tree.prev)
      ensures result == if frozen then ReadOnly else Stored(Lookup(old(Contents()), key))
      ensures Contents() == if frozen then old(Contents()) else Upsert(old(Contents()), key, row)
    {
      hide Upsert, Lookup, LowerBound, Less, TotalSize;
      if frozen {
        return ReadOnly;
      }
      var was := tree.Put(key, row, rnd);
      SizeAfterUpdate(old(tree.contents), key, row);
      var estimated := |key| + EstimateRowSize(row);
      match was {
        case Some(o) => size := size + (estimated - (|key| + EstimateRowSize(o)));
        case None => size := size + estimated;
      }
      return Stored(was);
    }

    method Delete(key: Key) returns (result: PutResult)
      requires Valid()
      modifies this`size, tree, tree.prev, tree.repr
      ensures Valid() && tree.repr == old(tree.repr) && tree.prev == old(tree.prev)
      ensures result == if frozen then ReadOnly else Stored(Lookup(old(Contents()), key))
      ensures Contents() == if frozen then old(Contents()) else Remove(old(Contents()), key)
    {
      hide Upsert, Remove, Lookup, LowerBound, Less, TotalSize;
      if frozen {
        return ReadOnly;
      }
      var was := tree.Delete(key);
      SizeAfterUpdate(old(tree.contents), key, Row(0, map[], false));
      match was {
        case Some(o) => size := size - (|key| + EstimateRowSize(o));
        case None =>
      }
      return Stored(was);
    }

    method Get(key: Key) returns (found: Option<Row>)
      requires Valid()
      ensures found == Lookup(Contents(), key)
    {
      found := tree.Get(key);
    }

    method ScanRange(start: Key, end: Key) returns (entries: seq<Entry<Row>>)
      requires Valid()
      ensures entries == Slice(Contents(), start, end)
    {
      entries := tree.ScanRange(start, end);
    }

    method All() returns (entries: seq<Entry<Row>>)
      requires Valid()
      ensures entries == Contents()
    {
      entries := tree.All();
    }

    method Freeze()
      modifies this`frozen
      ensures frozen
    {
      frozen := true;
    }

    method ShouldFlush() returns (full: bool)
      requires Valid()
      ensures full <==> TotalSize(Contents()) >= maxSize
    {
      full := size >= maxSize;
    }
  }
}
