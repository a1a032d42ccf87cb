/** The two stores of persistable/persistload.py: PersistLoadBasic, keyed by
    type alone, and PersistLoadWithParameters, keyed by type, parameters and
    extension with a fallback search for a unique similar file. */
module PersistLoad {
  import opened Outcomes
  import opened Codecs
  import opened WorkingDirectory
  import opened SimilarFiles

  /** Why a persist or a load failed. The first three are all raised as
      FileNotFoundError and differ only in their message. */
  datatype StoreError =
    | FileMissing(path: string)                 // open() of a name that does not exist
    | NoSimilarModels                           // "No similar models found"
    | AmbiguousModels(candidates: seq<string>)  // "... more than one related model: <candidates>"
    | UnparsableName(name: string)              // raised by parse_standard_filename, not caught
    | DuplicateKeyword(key: string)             // TypeError: multiple values for a keyword argument
  {
    predicate IsFileNotFoundError() {
      FileMissing? || NoSimilarModels? || AmbiguousModels?
    }
  }

  /** The keyword under which the extension is passed to
      default_standard_filename; a parameter of that name collides with it
      when the parameters are spread as keyword arguments. */
  const FnExtKeyword: string := "fn_ext"

  /** default_standard_filename(fn_type, fn_ext=fn_ext, **fn_params): the
      encoded name, or the TypeError raised before the call when a parameter
      is named like the extension keyword. A name that is computed reads back,
      through a round-tripping codec, as the type and the canonical parameters,
      and those never hold the extension keyword. */
  function StandardFilename<V(!new)>(naming: Naming<V>, fnType: string, fnParams: map<string, V>,
                                     fnExt: Option<string>): (r: Result<string, StoreError>)
    ensures naming.RoundTrips() && r.Ok? ==>
      && naming.parse(r.value).Some?
      && naming.parse(r.value).value.fnType == fnType
      && naming.parse(r.value).value.params == naming.Canonical(fnParams)
      && FnExtKeyword !in naming.parse(r.value).value.params
  {
    if FnExtKeyword in fnParams then Err(DuplicateKeyword(FnExtKeyword))
    else Ok(naming.encode(fnType, fnParams, fnExt))
  }

  // ===========================================================================
  // PersistLoadBasic

  /** The one file name a type is stored under. */
  function BasicFilename(fnType: string): (name: string) {
    fnType + ".pkl"
  }

  lemma BasicFilenameInjective(t: string, u: string)
    requires BasicFilename(t) == BasicFilename(u)
    ensures t == u
  {
    assert |t| == |u|;
    assert t == BasicFilename(t)[..|t|];
    assert u == BasicFilename(u)[..|u|];
  }

  function BasicLoadSpec<O(!new)>(l: Listing, pickle: Pickle<O>, fnType: string): (r: Result<O, StoreError>) {
    match l.Read(BasicFilename(fnType))
    case Some(blob) => Ok(pickle.load(blob))
    case None => Err(FileMissing(BasicFilename(fnType)))
  }

  /** Loading a type right after persisting an object under it gives the object back. */
  lemma BasicRoundTrip<O(!new)>(l: Listing, pickle: Pickle<O>, obj: O, fnType: string)
    requires pickle.RoundTrips()
    ensures BasicLoadSpec(l.Put(BasicFilename(fnType), pickle.dump(obj)), pickle, fnType) == Ok(obj)
  {
  }

  /** Persisting one type leaves the load of every other type as it was. */
  lemma BasicPersistIsolation<O(!new)>(l: Listing, pickle: Pickle<O>, obj: O, fnType: string, other: string)
    requires fnType != other
    ensures BasicLoadSpec(l.Put(BasicFilename(fnType), pickle.dump(obj)), pickle, other)
         == BasicLoadSpec(l, pickle, other)
  {
    if BasicFilename(fnType) == BasicFilename(other) {
      BasicFilenameInjective(fnType, other);
    }
  }

  /** A basic load fails only when the type's file is absent, and then with
      FileNotFoundError. */
  lemma BasicLoadFails<O(!new)>(l: Listing, pickle: Pickle<O>, fnType: string)
    ensures BasicLoadSpec(l, pickle, fnType).Err? <==> BasicFilename(fnType) !in l.contents
    ensures BasicLoadSpec(l, pickle, fnType).Err? ==> BasicLoadSpec(l, pickle, fnType).error.IsFileNotFoundError()
  {
  }

  class PersistLoadBasic<!O(!new)> {
    const dir: WorkingDir
    const pickle: Pickle<O>

    ghost predicate Valid()
      reads this, dir
    {
      dir.Valid()
    }

    constructor (dir: WorkingDir, pickle: Pickle<O>)
      requires dir.Valid()
      ensures this.dir == dir && this.pickle == pickle && Valid()
    {
      this.dir := dir;
      this.pickle := pickle;
    }

    method Persist(obj: O, fnType: string)
      requires Valid()
      modifies dir
      ensures Valid()
      ensures dir.Snapshot() == old(dir.Snapshot()).Put(BasicFilename(fnType), pickle.dump(obj))
    {
      dir.Write(BasicFilename(fnType), pickle.dump(obj));
    }

    method Load(fnType: string) returns (r: Result<O, StoreError>)
      requires Valid()
      ensures r == BasicLoadSpec(dir.Snapshot(), pickle, fnType)
    {
      var blob := dir.Open(BasicFilename(fnType));
      if blob.Some? {
        r := Ok(pickle.load(blob.value));
      } else {
        r := Err(FileMissing(BasicFilename(fnType)));
      }
    }
  }

  // ===========================================================================
  // PersistLoadWithParameters: specification

  /** _load_similar_file: the decision on the number of candidates. */
  function LoadSimilarSpec<V(!new), O(!new)>(l: Listing, naming: Naming<V>, pickle: Pickle<O>,
                                               fnType: string, fnParams: map<string, V>): (r: Result<O, StoreError>)
    requires l.Valid()
  {
    match Scan(naming.parse, fnType, naming.Canonical(fnParams), l.order)
    case Err(name) => Err(UnparsableName(name))
    case Ok(similar) =>
      if |similar| == 1 then
        FilterMembers(naming.parse, fnType, naming.Canonical(fnParams), l.order);
        assert similar[0] in similar;
        Ok(pickle.load(l.contents[similar[0]]))
      else if |similar| > 1 then Err(AmbiguousModels(similar))
      else Err(NoSimilarModels)
  }

  /** persist: the directory with exactly the encoded name written, or the
      TypeError of the name computation, with nothing written. */
  function PersistSpec<V(!new), O(!new)>(l: Listing, naming: Naming<V>, pickle: Pickle<O>, obj: O,
                                         fnType: string, fnParams: map<string, V>,
                                         fnExt: Option<string>): (r: Result<Listing, StoreError>)
    ensures l.Valid() && r.Ok? ==> r.value.Valid()
  {
    match StandardFilename(naming, fnType, fnParams, fnExt)
    case Err(e) => Err(e)
    case Ok(fn) => Ok(l.Put(fn, pickle.dump(obj)))
  }

  /** load: the exact file when it exists, otherwise the similar-file fallback;
      the TypeError of the name computation comes before either. */
  function LoadSpec<V(!new), O(!new)>(l: Listing, naming: Naming<V>, pickle: Pickle<O>,
                                      fnType: string, fnParams: map<string, V>,
                                      fnExt: Option<string>): (r: Result<O, StoreError>)
    requires l.Valid()
  {
    match StandardFilename(naming, fnType, fnParams, fnExt)
    case Err(e) => Err(e)
    case Ok(fn) =>
      if fn in l.contents then Ok(pickle.load(l.contents[fn]))
      else LoadSimilarSpec(l, naming, pickle, fnType, fnParams)
  }

  // ===========================================================================
  // PersistLoadWithParameters: the object

  class PersistLoadWithParameters<!V(!new), !O(!new)> {
    const dir: WorkingDir
    const naming: Naming<V>
    const pickle: Pickle<O>

    ghost predicate Valid()
      reads this, dir
    {
      dir.Valid()
    }

    constructor (dir: WorkingDir, naming: Naming<V>, pickle: Pickle<O>)
      requires dir.Valid()
      ensures this.dir == dir && this.naming == naming && this.pickle == pickle && Valid()
    {
      this.dir := dir;
      this.naming := naming;
      this.pickle := pickle;
    }

    method Persist(obj: O, fnType: string, fnParams: map<string, V>, fnExt: Option<string>)
      returns (r: Result<(), StoreError>)
      requires Valid()
      modifies dir
      ensures Valid()
      ensures var p := PersistSpec(old(dir.Snapshot()), naming, pickle, obj, fnType, fnParams, fnExt);
        && r.Err? == p.Err?
        && (r.Err? ==> r.error == p.error && dir.Snapshot() == old(dir.Snapshot()))
        && (r.Ok? ==> dir.Snapshot() == p.value)
    {
      var fn := StandardFilename(naming, fnType, fnParams, fnExt);
      if fn.Err? {
        return Err(fn.error);
      }
      dir.Write(fn.value, pickle.dump(obj));
      r := Ok(());
    }

    method Load(fnType: string, fnParams: map<string, V>, fnExt: Option<string>) returns (r: Result<O, StoreError>)
      requires Valid()
      ensures r == LoadSpec(dir.Snapshot(), naming, pickle, fnType, fnParams, fnExt)
    {
      var fn := StandardFilename(naming, fnType, fnParams, fnExt);
      if fn.Err? {
        return Err(fn.error);
      }
      var exact := dir.Open(fn.value);
      if exact.Some? {
        return Ok(pickle.load(exact.value));
      }
      // the exact open raised FileNotFoundError
      r := LoadSimilarFile(fnType, fnParams);
    }

    method LoadSimilarFile(fnType: string, fnParams: map<string, V>) returns (r: Result<O, StoreError>)
      requires Valid()
      ensures r == LoadSimilarSpec(dir.Snapshot(), naming, pickle, fnType, fnParams)
    {
      var found := FindSimilarFiles(fnType, fnParams);
      if found.Err? {
        return Err(UnparsableName(found.error));
      }
      var similar := found.value;
      if |similar| == 1 {
        FilterMembers(naming.parse, fnType, naming.Canonical(fnParams), dir.order);
        assert similar[0] in similar;
        var blob := dir.Open(similar[0]);
        r := Ok(pickle.load(blob.value));
      } else if |similar| > 1 {
        r := Err(AmbiguousModels(similar));
      } else {
        r := Err(NoSimilarModels);
      }
    }

    method FindSimilarFiles(fnType: string, fnParams: map<string, V>) returns (r: Result<seq<string>, string>)
      requires Valid()
      ensures r == Scan(naming.parse, fnType, naming.Canonical(fnParams), dir.order)
    {
      var compare := naming.Canonical(fnParams);
      var similar: seq<string> := [];
      var i := 0;
      while i < |dir.order|
        invariant 0 <= i <= |dir.order|
        invariant FirstUnparsable(naming.parse, dir.order[..i]) == None
        invariant similar == Filter(naming.parse, fnType, compare, dir.order[..i])
      {
        var name := dir.order[i];
        var parsed := naming.parse(name);
        FirstUnparsableAppend(naming.parse, dir.order[..i], dir.order[i..]);
        assert dir.order[..i] + dir.order[i..] == dir.order;
        if parsed.None? {
          return Err(name);
        }
        FirstUnparsableAppend(naming.parse, dir.order[..i], [name]);
        assert dir.order[..i + 1] == dir.order[..i] + [name];
        if parsed.value.fnType == fnType && SubsetOf(compare, parsed.value.params) {
          similar := similar + [name];
        }
        i := i + 1;
      }
      assert dir.order[..i] == dir.order;
      r := Ok(similar);
    }
  }

  // ===========================================================================
  // PersistLoadWithParameters: properties

  /** A parameter named like the extension keyword makes both persist and
      load raise TypeError before any file is touched. */
  lemma ExtKeywordRaisesTypeError<V(!new), O(!new)>(l: Listing, naming: Naming<V>, pickle: Pickle<O>, obj: O,
                                                    fnType: string, fnParams: map<string, V>, fnExt: Option<string>)
    requires l.Valid()
    ensures PersistSpec(l, naming, pickle, obj, fnType, fnParams, fnExt).Err?
        <==> FnExtKeyword in fnParams
    ensures FnExtKeyword in fnParams ==>
      && PersistSpec(l, naming, pickle, obj, fnType, fnParams, fnExt) == Err(DuplicateKeyword(FnExtKeyword))
      && LoadSpec(l, naming, pickle, fnType, fnParams, fnExt) == Err(DuplicateKeyword(FnExtKeyword))
  {
  }

  /** When the exact file exists, load returns its content and nothing else in
      the directory matters: two directories that agree on that one file give
      the same result, even if one holds files that cannot be parsed. */
  lemma ExactHitIgnoresRest<V(!new), O(!new)>(l: Listing, l': Listing, naming: Naming<V>, pickle: Pickle<O>,
                                              fnType: string, fnParams: map<string, V>, fnExt: Option<string>)
    requires l.Valid() && l'.Valid()
    requires naming.encode(fnType, fnParams, fnExt) in l.contents
    requires l'.Read(naming.encode(fnType, fnParams, fnExt)) == l.Read(naming.encode(fnType, fnParams, fnExt))
    ensures LoadSpec(l, naming, pickle, fnType, fnParams, fnExt) == LoadSpec(l', naming, pickle, fnType, fnParams, fnExt)
    ensures FnExtKeyword !in fnParams ==> LoadSpec(l, naming, pickle, fnType, fnParams, fnExt).Ok?
  {
  }

  /** persist followed by load with the same arguments returns the object,
      through the exact file, whenever the persist succeeded. */
  lemma PersistThenLoad<V(!new), O(!new)>(l: Listing, naming: Naming<V>, pickle: Pickle<O>, obj: O,
                                          fnType: string, fnParams: map<string, V>, fnExt: Option<string>)
    requires l.Valid() && pickle.RoundTrips()
    ensures var p := PersistSpec(l, naming, pickle, obj, fnType, fnParams, fnExt);
      p.Ok? ==> LoadSpec(p.value, naming, pickle, fnType, fnParams, fnExt) == Ok(obj)
  {
  }

  /** A second persist with the same arguments overwrites the first: the
      directory is as if only the second had happened, and load returns the
      second object. */
  lemma PersistTwiceThenLoad<V(!new), O(!new)>(l: Listing, naming: Naming<V>, pickle: Pickle<O>, first: O, second: O,
                                               fnType: string, fnParams: map<string, V>, fnExt: Option<string>)
    requires l.Valid() && pickle.RoundTrips()
    ensures var p1 := PersistSpec(l, naming, pickle, first, fnType, fnParams, fnExt);
      p1.Ok? ==>
        var p2 := PersistSpec(p1.value, naming, pickle, second, fnType, fnParams, fnExt);
        && p2 == PersistSpec(l, naming, pickle, second, fnType, fnParams, fnExt)
        && p2.Ok?
        && LoadSpec(p2.value, naming, pickle, fnType, fnParams, fnExt) == Ok(second)
  {
    var fn := naming.encode(fnType, fnParams, fnExt);
    PutOverwrites(l, fn, pickle.dump(first), pickle.dump(second));
  }

  /** The candidates, when every name parses, are the similar files, once
      each, in enumeration order. */
  lemma ScanWhenAllParse(parse: string -> Option<ParsedName>, fnType: string,
                         request: map<string, string>, l: Listing)
    requires l.Valid() && AllParse(parse, l.order)
    ensures Scan(parse, fnType, request, l.order).Ok?
    ensures var c := Scan(parse, fnType, request, l.order).value;
      && (forall x :: x in c <==> x in l.order && IsSimilar(parse, fnType, request, x))
      && Distinct(c)
      && IsSubsequence(c, l.order)
  {
    FirstUnparsableIsFirst(parse, l.order);
    FilterMembers(parse, fnType, request, l.order);
    FilterDistinct(parse, fnType, request, l.order);
    FilterIsSubsequence(parse, fnType, request, l.order);
  }

  /** No similar file: FileNotFoundError("No similar models found"). */
  lemma NoCandidateFails<V(!new), O(!new)>(l: Listing, naming: Naming<V>, pickle: Pickle<O>,
                                           fnType: string, fnParams: map<string, V>)
    requires l.Valid() && AllParse(naming.parse, l.order)
    requires forall x :: x in l.order ==> !IsSimilar(naming.parse, fnType, naming.Canonical(fnParams), x)
    ensures LoadSimilarSpec(l, naming, pickle, fnType, fnParams) == Err(NoSimilarModels)
  {
    ScanWhenAllParse(naming.parse, fnType, naming.Canonical(fnParams), l);
    FilterNone(naming.parse, fnType, naming.Canonical(fnParams), l.order);
  }

  /** Exactly one similar file: its content is returned. */
  lemma UniqueCandidateLoads<V(!new), O(!new)>(l: Listing, naming: Naming<V>, pickle: Pickle<O>,
                                               fnType: string, fnParams: map<string, V>, name: string)
    requires l.Valid() && AllParse(naming.parse, l.order)
    requires name in l.order && IsSimilar(naming.parse, fnType, naming.Canonical(fnParams), name)
    requires forall x :: x in l.order && IsSimilar(naming.parse, fnType, naming.Canonical(fnParams), x) ==> x == name
    ensures name in l.contents
    ensures LoadSimilarSpec(l, naming, pickle, fnType, fnParams) == Ok(pickle.load(l.contents[name]))
  {
    ScanWhenAllParse(naming.parse, fnType, naming.Canonical(fnParams), l);
    FilterSingle(naming.parse, fnType, naming.Canonical(fnParams), l.order, name);
  }

  /** Two or more similar files: FileNotFoundError listing every similar
      file, in enumeration order, and no other. */
  lemma SeveralCandidatesAmbiguous<V(!new), O(!new)>(l: Listing, naming: Naming<V>, pickle: Pickle<O>,
                                                     fnType: string, fnParams: map<string, V>,
                                                     one: string, another: string)
    requires l.Valid() && AllParse(naming.parse, l.order)
    requires one != another
    requires one in l.order && IsSimilar(naming.parse, fnType, naming.Canonical(fnParams), one)
    requires another in l.order && IsSimilar(naming.parse, fnType, naming.Canonical(fnParams), another)
    ensures var r := LoadSimilarSpec(l, naming, pickle, fnType, fnParams);
      && r.Err? && r.error.AmbiguousModels?
      && (forall x :: x in r.error.candidates
                 <==> x in l.order && IsSimilar(naming.parse, fnType, naming.Canonical(fnParams), x))
      && IsSubsequence(r.error.candidates, l.order)
  {
    ScanWhenAllParse(naming.parse, fnType, naming.Canonical(fnParams), l);
  }

  /** A name that cannot be parsed aborts the fallback, whatever else the
      directory holds: the first such name in enumeration order is reported. */
  lemma UnparsableAborts<V(!new), O(!new)>(l: Listing, naming: Naming<V>, pickle: Pickle<O>,
                                           fnType: string, fnParams: map<string, V>, bad: string)
    requires l.Valid()
    requires bad in l.order && naming.parse(bad).None?
    ensures var r := LoadSimilarSpec(l, naming, pickle, fnType, fnParams);
      && r.Err? && r.error.UnparsableName?
      && exists i :: 0 <= i < |l.order| && l.order[i] == r.error.name && naming.parse(l.order[i]).None?
                    && forall j :: 0 <= j < i ==> naming.parse(l.order[j]).Some?
  {
    FirstUnparsableIsFirst(naming.parse, l.order);
  }

  /** When every name parses, load fails only with the "no similar" or the
      "ambiguous" FileNotFoundError, or with the TypeError of a parameter named
      like the extension keyword. */
  lemma LoadFailsWithFileNotFound<V(!new), O(!new)>(l: Listing, naming: Naming<V>, pickle: Pickle<O>,
                                                    fnType: string, fnParams: map<string, V>, fnExt: Option<string>)
    requires l.Valid() && AllParse(naming.parse, l.order)
    ensures var r := LoadSpec(l, naming, pickle, fnType, fnParams, fnExt);
      r.Err? ==>
        || (r.error.IsFileNotFoundError() && (r.error.NoSimilarModels? || r.error.AmbiguousModels?))
        || (FnExtKeyword in fnParams && r.error == DuplicateKeyword(FnExtKeyword))
  {
    FirstUnparsableIsFirst(naming.parse, l.order);
  }

  /** Every name of a directory written by this codec from a parsable one parses. */
  lemma PutKeepsAllParse<V(!new)>(l: Listing, naming: Naming<V>, blob: Bytes,
                                  fnType: string, fnParams: map<string, V>, fnExt: Option<string>)
    requires naming.RoundTrips() && AllParse(naming.parse, l.order)
    ensures AllParse(naming.parse, l.Put(naming.encode(fnType, fnParams, fnExt), blob).order)
  {
    var fn := naming.encode(fnType, fnParams, fnExt);
    assert naming.parse(fn).Some?;
  }

  /** A file persisted under a superset of the requested parameters is found
      by the fallback when no other file is similar. */
  lemma LoadBySubsetOfStoredParams<V(!new), O(!new)>(l: Listing, naming: Naming<V>, pickle: Pickle<O>, obj: O,
                                                     fnType: string, stored: map<string, V>,
                                                     requested: map<string, V>, fnExt: Option<string>)
    requires l.Valid() && naming.RoundTrips() && pickle.RoundTrips()
    requires AllParse(naming.parse, l.order)
    requires SubsetOf(naming.Canonical(requested), naming.Canonical(stored))
    requires forall x :: x in l.order && x != naming.encode(fnType, stored, fnExt)
                    ==> !IsSimilar(naming.parse, fnType, naming.Canonical(requested), x)
    requires naming.encode(fnType, requested, fnExt) !in l.contents
          || naming.encode(fnType, requested, fnExt) == naming.encode(fnType, stored, fnExt)
    ensures var p := PersistSpec(l, naming, pickle, obj, fnType, stored, fnExt);
      p.Ok? ==> LoadSpec(p.value, naming, pickle, fnType, requested, fnExt) == Ok(obj)
  {
    var fn := naming.encode(fnType, stored, fnExt);
    if FnExtKeyword !in stored {
      var l' := l.Put(fn, pickle.dump(obj));
      assert FnExtKeyword !in requested by {
        assert naming.Canonical(requested).Keys == requested.Keys;
      }
      if naming.encode(fnType, requested, fnExt) != fn {
        PutKeepsAllParse(l, naming, pickle.dump(obj), fnType, stored, fnExt);
        UniqueCandidateLoads(l', naming, pickle, fnType, requested, fn);
      }
    }
  }

  /** Two files of the type persisted under different parameters that both
      carry the request make the fallback ambiguous, naming both. */
  lemma LoadAmbiguousAfterTwoPersists<V(!new), O(!new)>(l: Listing, naming: Naming<V>, pickle: Pickle<O>,
                                                        first: O, second: O, fnType: string,
                                                        p1: map<string, V>, p2: map<string, V>,
                                                        requested: map<string, V>, fnExt: Option<string>)
    requires l.Valid() && naming.RoundTrips()
    requires AllParse(naming.parse, l.order)
    requires naming.encode(fnType, p1, fnExt) != naming.encode(fnType, p2, fnExt)
    requires SubsetOf(naming.Canonical(requested), naming.Canonical(p1))
    requires SubsetOf(naming.Canonical(requested), naming.Canonical(p2))
    ensures var r1 := PersistSpec(l, naming, pickle, first, fnType, p1, fnExt);
      r1.Ok? ==>
        var r2 := PersistSpec(r1.value, naming, pickle, second, fnType, p2, fnExt);
        r2.Ok? && naming.encode(fnType, requested, fnExt) !in r2.value.contents ==>
          var r := LoadSpec(r2.value, naming, pickle, fnType, requested, fnExt);
          && r.Err? && r.error.AmbiguousModels?
          && naming.encode(fnType, p1, fnExt) in r.error.candidates
          && naming.encode(fnType, p2, fnExt) in r.error.candidates
  {
    var n1, n2 := naming.encode(fnType, p1, fnExt), naming.encode(fnType, p2, fnExt);
    if FnExtKeyword !in p1 && FnExtKeyword !in p2 {
      var l1 := l.Put(n1, pickle.dump(first));
      var l' := l1.Put(n2, pickle.dump(second));
      assert FnExtKeyword !in requested by {
        assert naming.Canonical(requested).Keys == requested.Keys;
      }
      PutKeepsAllParse(l, naming, pickle.dump(first), fnType, p1, fnExt);
      PutKeepsAllParse(l1, naming, pickle.dump(second), fnType, p2, fnExt);
      SeveralCandidatesAmbiguous(l', naming, pickle, fnType, requested, n1, n2);
    }
  }

  /** Asking for a key the file was not persisted with finds nothing when no
      other file is similar: matching is one-directional. When that key is
      the extension keyword, the load raises TypeError instead. */
  lemma LoadWithExtraParamFails<V(!new), O(!new)>(l: Listing, naming: Naming<V>, pickle: Pickle<O>, obj: O,
                                                  fnType: string, stored: map<string, V>,
                                                  requested: map<string, V>, fnExt: Option<string>, extra: string)
    requires l.Valid() && naming.RoundTrips()
    requires AllParse(naming.parse, l.order)
    requires extra in requested && extra !in stored
    requires forall x :: x in l.order && x != naming.encode(fnType, stored, fnExt)
                    ==> !IsSimilar(naming.parse, fnType, naming.Canonical(requested), x)
    ensures var p := PersistSpec(l, naming, pickle, obj, fnType, stored, fnExt);
      p.Ok? ==>
        LoadSpec(p.value, naming, pickle, fnType, requested, fnExt)
          == if FnExtKeyword in requested then Err(DuplicateKeyword(FnExtKeyword)) else Err(NoSimilarModels)
  {
    var fn := naming.encode(fnType, stored, fnExt);
    if FnExtKeyword !in stored && FnExtKeyword !in requested {
      var l' := l.Put(fn, pickle.dump(obj));
      var rq := naming.encode(fnType, requested, fnExt);
      assert extra in naming.Canonical(requested);
      assert extra !in naming.parse(fn).value.params;
      // The requested name parses as similar to its own request, so it is
      // neither the stored file nor any other enumerated one: no exact hit.
      assert IsSimilar(naming.parse, fnType, naming.Canonical(requested), rq);
      assert rq != fn;
      assert rq !in l.order;
      assert rq !in l'.contents;
      PutKeepsAllParse(l, naming, pickle.dump(obj), fnType, stored, fnExt);
      assert !IsSimilar(naming.parse, fnType, naming.Canonical(requested), fn);
      NoCandidateFails(l', naming, pickle, fnType, requested);
    }
  }
}
