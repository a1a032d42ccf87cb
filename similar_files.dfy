/** The directory scan of PersistLoadWithParameters._find_similar_files, as
    specification functions over the enumeration order of the directory. */
module SimilarFiles {
  import opened Outcomes
  import opened Codecs
  import opened WorkingDirectory

  /** Every requested key is present in the file's parameters with an equal
      value. A missing key raises KeyError in the source and a different
      value makes all(...) false; either way the file is not kept. */
  predicate SubsetOf(request: map<string, string>, fileParams: map<string, string>) {
    forall k :: k in request ==> k in fileParams && fileParams[k] == request[k]
  }

  /** The name parses, has the requested type and carries the request. */
  predicate IsSimilar(parse: string -> Option<ParsedName>, fnType: string,
                      request: map<string, string>, name: string)
  {
    && parse(name).Some?
    && parse(name).value.fnType == fnType
    && SubsetOf(request, parse(name).value.params)
  }

  /** The similar names, in enumeration order. */
  function Filter(parse: string -> Option<ParsedName>, fnType: string,
                  request: map<string, string>, names: seq<string>): (similar: seq<string>)
    decreases |names|
  {
    if names == [] then []
    else
      var last := names[|names| - 1];
      Filter(parse, fnType, request, names[..|names| - 1])
        + (if IsSimilar(parse, fnType, request, last) then [last] else [])
  }

  ghost predicate AllParse(parse: string -> Option<ParsedName>, names: seq<string>) {
    forall n :: n in names ==> parse(n).Some?
  }

  /** The first name, in enumeration order, that the codec cannot parse. */
  function FirstUnparsable(parse: string -> Option<ParsedName>, names: seq<string>): (first: Option<string>)
  {
    if names == [] then None
    else if parse(names[0]).None? then Some(names[0])
    else FirstUnparsable(parse, names[1..])
  }

  /** What _find_similar_files produces: the similar names, or the name whose
      parse failed (the exception propagates out of the loop). */
  function Scan(parse: string -> Option<ParsedName>, fnType: string,
                request: map<string, string>, names: seq<string>): (r: Result<seq<string>, string>)
  {
    match FirstUnparsable(parse, names)
    case Some(n) => Err(n)
    case None => Ok(Filter(parse, fnType, request, names))
  }

  /** a is b with some elements left out, order kept. */
  predicate IsSubsequence<T(==)>(a: seq<T>, b: seq<T>)
    decreases |b|
  {
    if a == [] then true
    else if b == [] then false
    else if a[|a| - 1] == b[|b| - 1] then IsSubsequence(a[..|a| - 1], b[..|b| - 1])
    else IsSubsequence(a, b[..|b| - 1])
  }

  // ---------------------------------------------------------------------------
  // Properties of the scan

  lemma {:induction false} FirstUnparsableAppend(parse: string -> Option<ParsedName>, a: seq<string>, b: seq<string>)
    ensures FirstUnparsable(parse, a + b)
         == if FirstUnparsable(parse, a).Some? then FirstUnparsable(parse, a) else FirstUnparsable(parse, b)
  {
    if a == [] {
      assert a + b == b;
    } else {
      assert (a + b)[0] == a[0];
      assert (a + b)[1..] == a[1..] + b;
      FirstUnparsableAppend(parse, a[1..], b);
    }
  }

  /** The scan fails exactly when some name does not parse, and then it names
      the first such name in enumeration order. */
  lemma {:induction false} FirstUnparsableIsFirst(parse: string -> Option<ParsedName>, names: seq<string>)
    ensures FirstUnparsable(parse, names).None? <==> forall n :: n in names ==> parse(n).Some?
    ensures FirstUnparsable(parse, names).Some? ==>
      exists i :: 0 <= i < |names| && names[i] == FirstUnparsable(parse, names).value
        && parse(names[i]).None? && forall j :: 0 <= j < i ==> parse(names[j]).Some?
  {
    if names != [] {
      FirstUnparsableIsFirst(parse, names[1..]);
      if parse(names[0]).Some? && FirstUnparsable(parse, names[1..]).Some? {
        var i :| 0 <= i < |names[1..]| && names[1..][i] == FirstUnparsable(parse, names[1..]).value
          && parse(names[1..][i]).None? && forall j :: 0 <= j < i ==> parse(names[1..][j]).Some?;
        assert names[i + 1] == names[1..][i];
        assert forall j :: 0 <= j < i + 1 ==> parse(names[j]).Some? by {
          forall j | 0 <= j < i + 1 ensures parse(names[j]).Some? {
            if j > 0 { assert names[j] == names[1..][j - 1]; }
          }
        }
      }
      assert forall n :: n in names <==> n == names[0] || n in names[1..];
    }
  }

  /** A name is a candidate exactly when it is in the directory and similar:
      the scan invents nothing and misses nothing. */
  lemma {:induction false} FilterMembers(parse: string -> Option<ParsedName>, fnType: string,
                                         request: map<string, string>, names: seq<string>)
    ensures forall x :: x in Filter(parse, fnType, request, names)
                    <==> x in names && IsSimilar(parse, fnType, request, x)
  {
    if names != [] {
      var init := names[..|names| - 1];
      FilterMembers(parse, fnType, request, init);
      assert names == init + [names[|names| - 1]];
    }
  }

  /** No similar name: no candidate. */
  lemma {:induction false} FilterNone(parse: string -> Option<ParsedName>, fnType: string,
                                      request: map<string, string>, names: seq<string>)
    requires forall x :: x in names ==> !IsSimilar(parse, fnType, request, x)
    ensures Filter(parse, fnType, request, names) == []
  {
    if names != [] {
      var init := names[..|names| - 1];
      assert forall x :: x in init ==> x in names;
      FilterNone(parse, fnType, request, init);
    }
  }

  /** Exactly one similar name, enumerated once: it is the only candidate. */
  lemma {:induction false} FilterSingle(parse: string -> Option<ParsedName>, fnType: string,
                                        request: map<string, string>, names: seq<string>, name: string)
    requires Distinct(names)
    requires name in names && IsSimilar(parse, fnType, request, name)
    requires forall x :: x in names && IsSimilar(parse, fnType, request, x) ==> x == name
    ensures Filter(parse, fnType, request, names) == [name]
  {
    var init := names[..|names| - 1];
    var last := names[|names| - 1];
    assert names == init + [last];
    assert forall x :: x in init ==> x in names;
    if last == name {
      assert name !in init;
      FilterNone(parse, fnType, request, init);
    } else {
      FilterSingle(parse, fnType, request, init, name);
    }
  }

  /** The candidates come in enumeration order. */
  lemma {:induction false} FilterIsSubsequence(parse: string -> Option<ParsedName>, fnType: string,
                                               request: map<string, string>, names: seq<string>)
    ensures IsSubsequence(Filter(parse, fnType, request, names), names)
  {
    if names != [] {
      var init := names[..|names| - 1];
      var last := names[|names| - 1];
      var f := Filter(parse, fnType, request, init);
      FilterIsSubsequence(parse, fnType, request, init);
      assert names == init + [last];
      if IsSimilar(parse, fnType, request, last) {
        assert (f + [last])[..|f|] == f;
      } else {
        assert f + [] == f;
        SubsequenceExtend(f, init, last);
      }
    }
  }

  /** No name is a candidate twice. */
  lemma {:induction false} FilterDistinct(parse: string -> Option<ParsedName>, fnType: string,
                                          request: map<string, string>, names: seq<string>)
    requires Distinct(names)
    ensures Distinct(Filter(parse, fnType, request, names))
  {
    if names != [] {
      var init := names[..|names| - 1];
      var last := names[|names| - 1];
      FilterDistinct(parse, fnType, request, init);
      FilterMembers(parse, fnType, request, init);
      assert last !in init;
    }
  }

  /** A file of one type is never a candidate for another type, whatever its
      parameters. */
  lemma TypeIsolation(parse: string -> Option<ParsedName>, fnType: string, otherType: string,
                      request: map<string, string>, otherRequest: map<string, string>, names: seq<string>)
    requires fnType != otherType
    ensures forall x :: x in Filter(parse, fnType, request, names)
                    ==> x !in Filter(parse, otherType, otherRequest, names)
  {
    FilterMembers(parse, fnType, request, names);
    FilterMembers(parse, otherType, otherRequest, names);
  }

  /** With an empty request every parsable file of the type is a candidate. */
  lemma EmptyRequestKeepsType(parse: string -> Option<ParsedName>, fnType: string, names: seq<string>)
    ensures forall x :: x in Filter(parse, fnType, map[], names)
                    <==> x in names && parse(x).Some? && parse(x).value.fnType == fnType
  {
    FilterMembers(parse, fnType, map[], names);
  }

  /** A file whose parameters lack a requested key is never a candidate:
      asking for more parameters than were stored finds nothing. */
  lemma MissingKeyExcludes(parse: string -> Option<ParsedName>, fnType: string,
                           request: map<string, string>, names: seq<string>, x: string, k: string)
    requires k in request
    requires parse(x).Some? && k !in parse(x).value.params
    ensures x !in Filter(parse, fnType, request, names)
  {
    FilterMembers(parse, fnType, request, names);
  }

  /** A looser request (fewer keys, same values) keeps every candidate of a
      stricter one, in the same order. */
  lemma {:induction false} LooserRequestKeepsCandidates(parse: string -> Option<ParsedName>, fnType: string,
                                                        loose: map<string, string>, strict: map<string, string>,
                                                        names: seq<string>)
    requires SubsetOf(loose, strict)
    ensures IsSubsequence(Filter(parse, fnType, strict, names), Filter(parse, fnType, loose, names))
  {
    if names != [] {
      var init := names[..|names| - 1];
      var last := names[|names| - 1];
      LooserRequestKeepsCandidates(parse, fnType, loose, strict, init);
      var fs := Filter(parse, fnType, strict, init);
      var fl := Filter(parse, fnType, loose, init);
      if IsSimilar(parse, fnType, strict, last) {
        assert IsSimilar(parse, fnType, loose, last);
        assert (fs + [last])[..|fs|] == fs;
        assert (fl + [last])[..|fl|] == fl;
      } else {
        assert fs + [] == fs;
        if IsSimilar(parse, fnType, loose, last) {
          SubsequenceExtend(fs, fl, last);
        } else {
          assert fl + [] == fl;
        }
      }
    }
  }

  lemma {:induction false} SubsequenceExtend<T>(a: seq<T>, b: seq<T>, x: T)
    requires IsSubsequence(a, b)
    ensures IsSubsequence(a, b + [x])
    decreases |b|, 1
  {
    if a != [] {
      assert (b + [x])[..|b|] == b;
      if a[|a| - 1] == x {
        SubsequenceDropLast(a, b);
      }
    }
  }

  lemma {:induction false} SubsequenceDropLast<T>(a: seq<T>, b: seq<T>)
    requires a != [] && IsSubsequence(a, b)
    ensures IsSubsequence(a[..|a| - 1], b)
    decreases |b|, 0
  {
    var a', b' := a[..|a| - 1], b[..|b| - 1];
    if a[|a| - 1] == b[|b| - 1] {
      SubsequenceExtend(a', b', b[|b| - 1]);
      assert b' + [b[|b| - 1]] == b;
    } else {
      SubsequenceDropLast(a, b');
      SubsequenceExtend(a', b', b[|b| - 1]);
      assert b' + [b[|b| - 1]] == b;
    }
  }
}
