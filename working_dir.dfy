/** The working directory that a store reads and writes: a flat set of files,
    each a name and its bytes, together with the order in which a glob('*')
    enumerates them. */
module WorkingDirectory {
  import opened Outcomes
  import opened Codecs

  ghost predicate Distinct<T>(s: seq<T>) {
    forall i, j :: 0 <= i < j < |s| ==> s[i] != s[j]
  }

  /** The directory contents at one moment: the bytes stored under each name,
      and the enumeration order of the names. */
  datatype Listing = Listing(contents: map<string, Bytes>, order: seq<string>) {

    /** Every file is enumerated exactly once. */
    ghost predicate Valid() {
      && Distinct(order)
      && forall n :: n in contents <==> n in order
    }

    /** Opening a name for reading: the bytes, or nothing when no such file exists. */
    function Read(name: string): (r: Option<Bytes>)
      ensures r.Some? <==> name in contents
      ensures r.Some? ==> r.value == contents[name]
    {
      if name in contents then Some(contents[name]) else None
    }

    /** open(name, 'wb') followed by a write: the file is created, or replaced
        where it already exists; a new name is enumerated after the old ones. */
    function Put(name: string, blob: Bytes): (r: Listing)
      ensures Valid() ==> r.Valid()
      ensures r.contents == contents[name := blob]
      ensures name in contents ==> r.order == order
      ensures name !in contents ==> r.order == order + [name]
    {
      Listing(contents[name := blob], if name in contents then order else order + [name])
    }
  }

  /** After a write, the written name reads back the written bytes and every
      other name reads back what it did before. */
  lemma PutReadBack(l: Listing, name: string, blob: Bytes, other: string)
    ensures l.Put(name, blob).Read(name) == Some(blob)
    ensures other != name ==> l.Put(name, blob).Read(other) == l.Read(other)
  {
  }

  /** A write adds at most one entry, and adds none when the name exists. */
  lemma PutEntryCount(l: Listing, name: string, blob: Bytes)
    requires l.Valid()
    ensures |l.Put(name, blob).contents| == |l.contents| + (if name in l.contents then 0 else 1)
    ensures |l.Put(name, blob).order| == |l.order| + (if name in l.contents then 0 else 1)
  {
  }

  /** Writing the same name twice is the same as writing it once with the
      second bytes: it overwrites rather than adds. */
  lemma PutOverwrites(l: Listing, name: string, first: Bytes, second: Bytes)
    ensures l.Put(name, first).Put(name, second) == l.Put(name, second)
  {
  }

  /** The working directory as the object the two stores share. */
  class WorkingDir {
    var contents: map<string, Bytes>
    var order: seq<string>

    function Snapshot(): (l: Listing)
      reads this
    {
      Listing(contents, order)
    }

    ghost predicate Valid()
      reads this
    {
      Snapshot().Valid()
    }

    /** A directory in a given initial state. */
    constructor (initial: Listing)
      requires initial.Valid()
      ensures Valid() && Snapshot() == initial
    {
      contents := initial.contents;
      order := initial.order;
    }

    method Write(name: string, blob: Bytes)
      requires Valid()
      modifies this
      ensures Valid()
      ensures Snapshot() == old(Snapshot()).Put(name, blob)
    {
      if name !in contents {
        order := order + [name];
      }
      contents := contents[name := blob];
    }

    /** open(name, 'rb'): None stands for FileNotFoundError. */
    method Open(name: string) returns (r: Option<Bytes>)
      requires Valid()
      ensures r.Some? <==> name in order
      ensures r.Some? ==> r.value == contents[name]
    {
      if name in contents {
        r := Some(contents[name]);
      } else {
        r := None;
      }
    }
  }
}
