/** PersistLoad.get_type: the class name split on "PersistLoad", last piece. */
module ClassNames {

  const Marker: string := "PersistLoad"

  predicate OccursAt(s: string, sep: string, i: nat) {
    i + |sep| <= |s| && s[i..i + |sep|] == sep
  }

  ghost predicate Contains(s: string, sep: string) {
    exists i: nat :: OccursAt(s, sep, i)
  }

  predicate EndsWith(s: string, suffix: string) {
    |suffix| <= |s| && s[|s| - |suffix|..] == suffix
  }

  /** The last element of s.split(sep), scanning left to right as Python does;
      piece holds the characters of the current piece read so far. */
  function LastPiece(s: string, sep: string, piece: string): (last: string)
    requires |sep| > 0
    decreases |s|
  {
    if |s| < |sep| then piece + s
    else if s[..|sep|] == sep then LastPiece(s[|sep|..], sep, [])
    else LastPiece(s[1..], sep, piece + [s[0]])
  }

  function GetType(className: string): (fnType: string) {
    LastPiece(className, Marker, [])
  }

  lemma EndsWithAppend(x: string, y: string, z: string)
    requires EndsWith(y, z)
    ensures EndsWith(x + y, z)
  {
    assert (x + y)[|x + y| - |z|..] == y[|y| - |z|..];
  }

  lemma {:induction false} LastPieceSpec(s: string, sep: string, piece: string)
    requires |sep| > 0
    requires forall i: nat :: i < |piece| ==> !OccursAt(piece + s, sep, i)
    ensures var r := LastPiece(s, sep, piece);
      && !Contains(r, sep)
      && EndsWith(piece + s, r)
      && (r == piece + s <==> !Contains(piece + s, sep))
      && (r != piece + s ==> EndsWith(piece + s, sep + r))
    decreases |s|
  {
    var w := piece + s;
    if |s| < |sep| {
      forall i: nat ensures !OccursAt(w, sep, i) {
        if i >= |piece| {
          assert i + |sep| > |w|;
        }
      }
      assert w[|w| - |w|..] == w;
    } else if s[..|sep|] == sep {
      var rest := s[|sep|..];
      LastPieceSpec(rest, sep, []);
      assert [] + rest == rest;
      var r := LastPiece(rest, sep, []);
      assert w == (piece + sep) + rest;
      assert OccursAt(w, sep, |piece|) by {
        assert w[|piece|..|piece| + |sep|] == s[..|sep|];
      }
      EndsWithAppend(piece + sep, rest, r);
      if r == rest {
        assert w == piece + (sep + r);
        assert EndsWith(sep + r, sep + r) by { assert (sep + r)[0..] == sep + r; }
        EndsWithAppend(piece, sep + r, sep + r);
      } else {
        EndsWithAppend(piece + sep, rest, sep + r);
      }
    } else {
      var piece' := piece + [s[0]];
      assert piece' + s[1..] == w;
      forall i: nat | i < |piece'| ensures !OccursAt(piece' + s[1..], sep, i) {
        if i == |piece| {
          assert w[i..i + |sep|] == s[..|sep|];
        }
      }
      LastPieceSpec(s[1..], sep, piece');
    }
  }

  /** The type is what follows the last "PersistLoad" in the class name; it
      contains no "PersistLoad" itself, and it is the whole name when the
      name contains none. */
  lemma GetTypeSpec(className: string)
    ensures var r := GetType(className);
      && !Contains(r, Marker)
      && EndsWith(className, r)
      && (r == className <==> !Contains(className, Marker))
      && (r != className ==> EndsWith(className, Marker + r))
  {
    LastPieceSpec(className, Marker, []);
    assert [] + className == className;
  }

  /** A class named "PersistLoad" followed by a suffix free of the marker
      has that suffix as its type. */
  lemma GetTypeAfterMarker(suffix: string)
    requires !Contains(suffix, Marker)
    ensures GetType(Marker + suffix) == suffix
  {
    var s := Marker + suffix;
    assert s[..|Marker|] == Marker;
    assert s[|Marker|..] == suffix;
    LastPieceSpec(suffix, Marker, []);
    assert [] + suffix == suffix;
  }

  lemma BasicType()
    ensures GetType("PersistLoadBasic") == "Basic"
  {
    assert "PersistLoadBasic" == Marker + "Basic";
    GetTypeAfterMarker("Basic");
  }

  lemma WithParametersType()
    ensures GetType("PersistLoadWithParameters") == "WithParameters"
  {
    var suffix := "WithParameters";
    assert "PersistLoadWithParameters" == Marker + suffix;
    forall i: nat ensures !OccursAt(suffix, Marker, i) {
      if i + |Marker| <= |suffix| {
        assert suffix[i..i + |Marker|][0] == suffix[i] != 'P';
      }
    }
    GetTypeAfterMarker(suffix);
  }

  lemma BaseType()
    ensures GetType("PersistLoad") == ""
  {
    assert "PersistLoad" == Marker + "";
    GetTypeAfterMarker("");
  }
}
