/**
 The column auto-detector: after a file is loaded, the latitude and longitude
 drop-downs are pre-set to the headers whose whole name, ignoring the case of
 ASCII letters, is one of a few known spellings. The headers are scanned in
 order and a later match overwrites an earlier one.
 */
module Detector {
  import opened Text

  /** The alternatives of the latitude pattern `^(lat|latitude|緯度|ラット)$`. */
  const LatitudeNames: set<string> := {"lat", "latitude", "緯度", "ラット"}

  /** The alternatives of the longitude pattern `^(lon|longitude|経度|ロン)$`. */
  const LongitudeNames: set<string> := {"lon", "longitude", "経度", "ロン"}

  datatype Role = Latitude | Longitude

  function Names(role: Role): set<string> {
    match role
    case Latitude => LatitudeNames
    case Longitude => LongitudeNames
  }

  /** The case-insensitive, anchored pattern test of one header for one role. */
  predicate Matches(role: Role, name: string) {
    ToLower(name) in Names(role)
  }

  /** A header matches a role exactly when the whole header equals one of the
      role's spellings up to the case of ASCII letters: no substring match. */
  lemma MatchesWholeName(role: Role, name: string)
    ensures Matches(role, name) <==>
            exists p :: p in Names(role) && SameIgnoringAsciiCase(name, p)
  {
    // every spelling is its own lower-case form
    assert ToLower("lat") == "lat" && ToLower("latitude") == "latitude";
    assert ToLower("lon") == "lon" && ToLower("longitude") == "longitude";
    assert ToLower("緯度") == "緯度" && ToLower("ラット") == "ラット";
    assert ToLower("経度") == "経度" && ToLower("ロン") == "ロン";
    assert forall p :: p in Names(role) ==> ToLower(p) == p;
    if Matches(role, name) {
      var p := ToLower(name);
      ToLowerEqual(name, p);
      assert SameIgnoringAsciiCase(name, p);
    }
    if exists p :: p in Names(role) && SameIgnoringAsciiCase(name, p) {
      var p :| p in Names(role) && SameIgnoringAsciiCase(name, p);
      ToLowerEqual(name, p);
    }
  }

  /** No header is taken for both roles: the two sets of spellings are disjoint. */
  lemma NoNameMatchesBothRoles(name: string)
    ensures !(Matches(Latitude, name) && Matches(Longitude, name))
  {
  }

  /** The value a drop-down holds after the scan: the last header in `columns`
      that matches `role`, or `prior` when none does. */
  function LastMatch(columns: seq<string>, role: Role, prior: string): (r: string)
    ensures r == prior || (r in columns && Matches(role, r))
  {
    if columns == [] then prior
    else if Matches(role, columns[|columns| - 1]) then columns[|columns| - 1]
    else LastMatch(columns[..|columns| - 1], role, prior)
  }

  /** The matching header with no match after it wins. */
  lemma {:induction false} LastMatchIsLast(columns: seq<string>, role: Role, prior: string, i: nat)
    requires i < |columns| && Matches(role, columns[i])
    requires forall j :: i < j < |columns| ==> !Matches(role, columns[j])
    ensures LastMatch(columns, role, prior) == columns[i]
  {
    if i < |columns| - 1 {
      var init := columns[..|columns| - 1];
      assert forall j :: i < j < |init| ==> init[j] == columns[j];
      LastMatchIsLast(init, role, prior, i);
    }
  }

  /** With no matching header the prior value is kept. */
  lemma {:induction false} LastMatchNone(columns: seq<string>, role: Role, prior: string)
    requires forall j :: 0 <= j < |columns| ==> !Matches(role, columns[j])
    ensures LastMatch(columns, role, prior) == prior
  {
    if columns != [] {
      var init := columns[..|columns| - 1];
      assert forall j :: 0 <= j < |init| ==> init[j] == columns[j];
      LastMatchNone(init, role, prior);
    }
  }

  /** `detectColumns`: scan the headers in order, overwriting the latitude and
      longitude selections on every match; `lat0` and `lon0` are the selections
      before the scan. */
  method DetectColumns(columns: seq<string>, lat0: string, lon0: string)
    returns (lat: string, lon: string)
    ensures lat == LastMatch(columns, Latitude, lat0)
    ensures lon == LastMatch(columns, Longitude, lon0)
  {
    lat, lon := lat0, lon0;
    var i := 0;
    while i < |columns|
      invariant 0 <= i <= |columns|
      invariant lat == LastMatch(columns[..i], Latitude, lat0)
      invariant lon == LastMatch(columns[..i], Longitude, lon0)
    {
      var col := columns[i];
      assert columns[..i + 1][..i] == columns[..i];
      if Matches(Latitude, col) {
        lat := col;
      }
      if Matches(Longitude, col) {
        lon := col;
      }
      i := i + 1;
    }
    assert columns[..|columns|] == columns;
  }

  /** `Longitude` is taken for the longitude role whatever its case. */
  lemma CapitalisedLongitudeMatches()
    ensures Matches(Longitude, "Longitude") && !Matches(Latitude, "Longitude")
  {
    assert ToLower("Longitude") == "longitude";
  }

  /** `latitude_2` contains a spelling but is not one, so it matches no role. */
  lemma SuffixedNameDoesNotMatch()
    ensures !Matches(Latitude, "latitude_2") && !Matches(Longitude, "latitude_2")
  {
    assert ToLower("latitude_2") == "latitude_2";
  }
}
