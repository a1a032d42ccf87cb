/** The collaborators persistload.py calls but does not define: the file name
    codec of util/os_util.py, the value canonicalisation built from
    recursive_value_map and repr, and pickle. Each is a function-typed field,
    so the model says nothing about them beyond the round-trip properties that
    the lemmas ask for explicitly. */
module Codecs {
  import opened Outcomes

  type Bytes = seq<bv8>

  /** What parse_standard_filename returns for a file name: the type, the
      extension and the parameter mapping, whose values are strings. */
  datatype ParsedName = ParsedName(fnType: string, fnExt: string, params: map<string, string>)

  /** str.replace(" ", ""): every space character removed. */
  function StripSpaces(s: string): (r: string)
    ensures forall c :: c in r <==> c in s && c != ' '
    ensures |r| <= |s|
  {
    if s == [] then []
    else if s[0] == ' ' then StripSpaces(s[1..])
    else [s[0]] + StripSpaces(s[1..])
  }

  lemma {:induction false} StripSpacesAppend(a: string, b: string)
    ensures StripSpaces(a + b) == StripSpaces(a) + StripSpaces(b)
  {
    if a == [] {
      assert a + b == b;
    } else {
      assert (a + b)[0] == a[0];
      assert (a + b)[1..] == a[1..] + b;
      StripSpacesAppend(a[1..], b);
    }
  }

  /** Two value representations that differ only by one space have the same
      canonical form, so they compare equal in the subset test. */
  lemma SpacesDoNotMatter(a: string, b: string)
    ensures StripSpaces(a + " " + b) == StripSpaces(a + b)
  {
    StripSpacesAppend(a + " ", b);
    StripSpacesAppend(a, " ");
    StripSpacesAppend(a, b);
  }

  /** Canonicalising twice is canonicalising once. */
  lemma {:induction false} StripSpacesIdempotent(s: string)
    ensures StripSpaces(StripSpaces(s)) == StripSpaces(s)
  {
    if s != [] {
      StripSpacesIdempotent(s[1..]);
      if s[0] != ' ' {
        assert ([s[0]] + StripSpaces(s[1..]))[1..] == StripSpaces(s[1..]);
      }
    }
  }

  /** The file name codec: default_standard_filename (encode),
      parse_standard_filename (parse) and Python's repr on parameter values. */
  datatype Naming<!V(!new)> = Naming(
    encode: (string, map<string, V>, Option<string>) -> string,
    parse: string -> Option<ParsedName>,
    repr: V -> string)
  {
    /** recursive_value_map(lambda val: repr(val).replace(" ", ""), params),
        applied to the top-level values. */
    function Canonical(params: map<string, V>): (c: map<string, string>)
      ensures c.Keys == params.Keys
      ensures forall k :: k in c ==> ' ' !in c[k]
    {
      map k | k in params :: StripSpaces(repr(params[k]))
    }

    /** Parsing a name this codec produced recovers the type and the
        canonical form of the parameters. */
    ghost predicate RoundTrips() {
      forall t, p, e ::
        && parse(encode(t, p, e)).Some?
        && parse(encode(t, p, e)).value.fnType == t
        && parse(encode(t, p, e)).value.params == Canonical(p)
    }
  }

  /** pickle.dump and pickle.load, as functions between objects and bytes. */
  datatype Pickle<!O(!new)> = Pickle(dump: O -> Bytes, load: Bytes -> O) {
    ghost predicate RoundTrips() {
      forall o :: load(dump(o)) == o
    }
  }
}
