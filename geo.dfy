/** lib/geo.go: the place-name cleanup used in track file names, and the formatting of a
    reverse-geocoded address. */
module Geo {
  import opened Optional

  /** Go's unicode.IsSpace, the test strings.TrimSpace applies at both ends. */
  predicate IsSpace(c: char) {
    c == '\t' || c == '\n' || c == '\U{0B}' || c == '\U{0C}' || c == '\r' || c == ' ' ||
    c == '\U{85}' || c == '\U{A0}' || c == '\U{1680}' || ('\U{2000}' <= c <= '\U{200A}') ||
    c == '\U{2028}' || c == '\U{2029}' || c == '\U{202F}' || c == '\U{205F}' || c == '\U{3000}'
  }

  /** Drops the leading white space. */
  function TrimLeft(s: string): (r: string)
    ensures |r| <= |s| && r == s[|s| - |r|..]
    ensures forall i :: 0 <= i < |s| - |r| ==> IsSpace(s[i])
    ensures r == [] || !IsSpace(r[0])
  {
    if |s| > 0 && IsSpace(s[0]) then TrimLeft(s[1..]) else s
  }

  /** Drops the trailing white space. */
  function TrimRight(s: string): (r: string)
    ensures |r| <= |s| && r == s[..|r|]
    ensures forall i :: |r| <= i < |s| ==> IsSpace(s[i])
    ensures r == [] || !IsSpace(r[|r| - 1])
  {
    if |s| > 0 && IsSpace(s[|s| - 1]) then TrimRight(s[..|s| - 1]) else s
  }

  /** strings.TrimSpace. */
  function TrimSpace(s: string): string {
    TrimRight(TrimLeft(s))
  }

  /** The characters the replacer maps to '_'. */
  predicate Forbidden(c: char) {
    c == '/' || c == ':' || c == '\\' || c == '.'
  }

  /** The strings.Replacer of GeonameCleanup. All its patterns are single ASCII characters,
      which never occur inside the encoding of another character, so it acts character by
      character. */
  function Replace(s: string): string {
    if s == [] then [] else Replace(s[..|s| - 1]) + [if Forbidden(s[|s| - 1]) then '_' else s[|s| - 1]]
  }

  function GeonameCleanup(input: string): string {
    Replace(TrimSpace(input))
  }

  /** The replacement keeps the length and every position: forbidden characters become '_',
      the others stay. */
  lemma {:induction false} ReplaceInPlace(s: string)
    ensures |Replace(s)| == |s|
    ensures forall i :: 0 <= i < |s| ==> Replace(s)[i] == (if Forbidden(s[i]) then '_' else s[i])
    decreases |s|
  {
    if s != [] {
      ReplaceInPlace(s[..|s| - 1]);
    }
  }

  /** The cleaned name has no '/', ':', '\\' or '.', is as long as the trimmed input, keeps
      every other character in place, and neither starts nor ends with white space. */
  lemma CleanupProperties(input: string)
    ensures var r := GeonameCleanup(input); var t := TrimSpace(input);
      && |r| == |t|
      && (forall i :: 0 <= i < |r| ==> !Forbidden(r[i]))
      && (forall i :: 0 <= i < |t| ==> !Forbidden(t[i]) ==> r[i] == t[i])
      && (forall i :: 0 <= i < |t| ==> Forbidden(t[i]) ==> r[i] == '_')
      && (r == [] || (!IsSpace(r[0]) && !IsSpace(r[|r| - 1])))
  {
    var t := TrimSpace(input);
    ReplaceInPlace(t);
    var l := TrimLeft(input);
    if t != [] {
      assert t[0] == l[0];
    }
  }

  /** Trimming a string that neither starts nor ends with white space changes nothing. */
  lemma TrimSpaceOfTrimmed(s: string)
    requires s == [] || (!IsSpace(s[0]) && !IsSpace(s[|s| - 1]))
    ensures TrimSpace(s) == s
  {
  }

  /** A string without forbidden characters is left alone by the replacement. */
  lemma {:induction false} ReplaceOfClean(s: string)
    requires forall i :: 0 <= i < |s| ==> !Forbidden(s[i])
    ensures Replace(s) == s
    decreases |s|
  {
    if s != [] {
      ReplaceOfClean(s[..|s| - 1]);
    }
  }

  /** Cleaning a cleaned name changes nothing. */
  lemma CleanupIdempotent(input: string)
    ensures GeonameCleanup(GeonameCleanup(input)) == GeonameCleanup(input)
  {
    var r := GeonameCleanup(input);
    CleanupProperties(input);
    TrimSpaceOfTrimmed(r);
    ReplaceOfClean(r);
    calc {
      GeonameCleanup(r);
      Replace(TrimSpace(r));
      Replace(r);
    }
  }

  /** The number of bytes of the UTF-8 encoding, which is what len() of a Go string counts. */
  function Utf8Len(s: string): (n: nat)
    ensures n >= |s|
  {
    if s == [] then 0
    else
      var c := s[0] as int;
      (if c < 0x80 then 1 else if c < 0x800 then 2 else if c < 0x10000 then 3 else 4) + Utf8Len(s[1..])
  }

  /** An ASCII string is as many bytes long as it has characters. */
  lemma {:induction false} Utf8LenAscii(s: string)
    requires forall i :: 0 <= i < |s| ==> s[i] as int < 0x80
    ensures Utf8Len(s) == |s|
    decreases |s|
  {
    if s != [] {
      assert forall i :: 0 <= i < |s| - 1 ==> s[1..][i] == s[i + 1];
      Utf8LenAscii(s[1..]);
    }
  }

  /** The fields of the reverse-geocoded address the formatting uses. */
  datatype Address = Address(City: string, State: string, Country: string, CountryCode: string)

  /** ReverseLocation after the geocoding call: the place text and whether an error is returned. */
  function ReverseLocation(geocoded: Option<Address>, defaultCountry: string): (string, bool) {
    match geocoded
    case None => ("", true)
    case Some(a) =>
      if Utf8Len(a.City) < 9 && a.State != "" then
        if defaultCountry == a.CountryCode then (a.City + " " + a.State, false)
        else (a.City + " " + a.State + " " + a.Country, false)
      else if defaultCountry == a.CountryCode then (a.City, false)
      else (a.City + " " + a.Country, false)
  }

  /** The text is the city, then the state when the city's encoding is shorter than 9 bytes and a
      state is known, then the country when it is not the default one. An error gives "". */
  lemma ReverseLocationShape(geocoded: Option<Address>, defaultCountry: string)
    ensures ReverseLocation(geocoded, defaultCountry).1 <==> geocoded.None?
    ensures geocoded.None? ==> ReverseLocation(geocoded, defaultCountry).0 == ""
    ensures geocoded.Some? ==>
              var a := geocoded.value;
              ReverseLocation(geocoded, defaultCountry).0 ==
                a.City + (if Utf8Len(a.City) < 9 && a.State != "" then " " + a.State else "")
                       + (if defaultCountry != a.CountryCode then " " + a.Country else "")
  {
    if geocoded.Some? {
      var a := geocoded.value;
      assert a.City + " " + a.State + " " + a.Country == a.City + (" " + a.State) + (" " + a.Country);
      assert a.City + " " + a.State == a.City + (" " + a.State) + "";
      assert a.City + " " + a.Country == a.City + "" + (" " + a.Country);
      assert a.City == a.City + "" + "";
    }
  }

  /** The length test counts bytes: an eight-letter city with one accented letter is already too
      long for the state to be added. */
  lemma CityLengthCountsBytes()
    ensures ReverseLocation(Some(Address("M\U{F3}stoles", "Madrid", "Espa\U{F1}a", "es")), "es") == ("M\U{F3}stoles", false)
    ensures ReverseLocation(Some(Address("Mostoles", "Madrid", "Espa\U{F1}a", "es")), "es") == ("Mostoles Madrid", false)
  {
    AccentedCityBytes();
    AsciiCityBytes();
    JoinedPlace();
  }

  lemma AsciiCityBytes()
    ensures Utf8Len("Mostoles") == 8
  {
    Utf8LenAscii("Mostoles");
  }

  lemma JoinedPlace()
    ensures "Mostoles" + " " + "Madrid" == "Mostoles Madrid"
  {
  }

  lemma AccentedCityBytes()
    ensures Utf8Len("M\U{F3}stoles") == 9
  {
    var accented := "M\U{F3}stoles";
    assert accented[1..][1..] == "stoles";
    Utf8LenAscii("stoles");
    assert Utf8Len(accented[1..]) == 2 + Utf8Len("stoles");
  }
}
