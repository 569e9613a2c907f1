/** The download file name the script gives a generated image
    (`makeFileName`): the selected planet with its white space collapsed, an
    underscore, a compact timestamp, a dot and the extension. The clock is a
    parameter: `iso` stands for `new Date().toISOString()`. */
module FileName {

  import opened Js
  import opened JsString

  /** The planet part used when no planet value is selected. */
  const DefaultPlanet: string := "planet"

  /** The timestamp keeps at most this many characters (`slice(0, 15)`). */
  const StampLength: nat := 15

  /** `(value || 'planet').replace(/\s+/g, '_')`. */
  function PlanetPart(value: string): (p: string)
    ensures p != []
    ensures NoSpace(p)
  {
    CollapseSpaces(if value == [] then DefaultPlanet else value)
  }

  /** An empty planet value yields `planet`; a value without white space is
      kept verbatim. */
  lemma PlanetPartUnchanged(value: string)
    ensures value == [] ==> PlanetPart(value) == DefaultPlanet
    ensures value != [] && NoSpace(value) ==> PlanetPart(value) == value
  {
    if value == [] {
      CollapseWithoutSpace(DefaultPlanet);
    } else if NoSpace(value) {
      CollapseWithoutSpace(value);
    }
  }

  /** `iso.replaceAll(':', '').replaceAll('-', '').slice(0, 15)`. */
  function Stamp(iso: string): (ts: string)
    ensures ':' !in ts && '-' !in ts
    ensures |ts| == Min(StampLength, |iso| - multiset(iso)[':'] - multiset(iso)['-'])
  {
    var noColons := RemoveAll(iso, ':');
    var compact := RemoveAll(noColons, '-');
    RemoveAllCounts(iso, ':');
    RemoveAllCounts(noColons, '-');
    assert multiset(noColons)['-'] == multiset(iso)['-'];
    assert multiset(compact)[':'] == 0;
    compact[..Min(StampLength, |compact|)]
  }

  /** The file name `p_ts.ext`. */
  function MakeFileName(value: string, iso: string, ext: string): (name: string)
    ensures |name| == |PlanetPart(value)| + |Stamp(iso)| + |ext| + 2
    ensures name[..|PlanetPart(value)|] == PlanetPart(value)
    ensures name[|PlanetPart(value)|] == '_'
    ensures name[|PlanetPart(value)| + 1..|name| - |ext| - 1] == Stamp(iso)
    ensures name[|name| - |ext| - 1] == '.' && name[|name| - |ext|..] == ext
  {
    PlanetPart(value) + "_" + Stamp(iso) + "." + ext
  }

  /** The index of the last occurrence of `c` in `s`, if any; the parser
      below splits a file name at such positions. */
  function LastIndexOf(s: string, c: char): (i: Option<nat>)
    ensures i.None? <==> c !in s
    ensures i.Some? ==> i.value < |s| && s[i.value] == c && c !in s[i.value + 1..]
  {
    if s == [] then None
    else if s[|s| - 1] == c then Some(|s| - 1)
    else
      assert s == s[..|s| - 1] + [s[|s| - 1]];
      var i := LastIndexOf(s[..|s| - 1], c);
      if i.Some? then
        assert s[i.value + 1..] == s[..|s| - 1][i.value + 1..] + [s[|s| - 1]];
        i
      else i
  }

  /** The position characterised by `LastIndexOf`'s contract is unique. */
  lemma LastIndexOfAt(s: string, c: char, k: nat)
    requires k < |s| && s[k] == c && c !in s[k + 1..]
    ensures LastIndexOf(s, c) == Some(k)
  {
  }

  /** The three parts of a download file name. */
  datatype Parts = Parts(planet: string, stamp: string, ext: string)

  /** Reads a file name back: the extension follows the last `.`, and the
      stamp lies between the last `_` before it and that `.`. */
  function SplitFileName(name: string): (r: Option<Parts>)
    ensures r.Some? ==> name == r.value.planet + "_" + r.value.stamp + "." + r.value.ext
    ensures r.Some? ==> '.' !in r.value.ext && '_' !in r.value.stamp
  {
    match LastIndexOf(name, '.')
    case None => None
    case Some(dot) =>
      match LastIndexOf(name[..dot], '_')
      case None => None
      case Some(bar) =>
        assert name[..dot][bar + 1..] == name[bar + 1..dot];
        assert name == name[..bar] + "_" + name[bar + 1..dot] + "." + name[dot + 1..];
        Some(Parts(name[..bar], name[bar + 1..dot], name[dot + 1..]))
  }

  /** Round trip: the planet part, the stamp and the extension are recovered
      from the file name whenever the extension has no `.` and the stamp has
      neither `.` nor `_`, however many of either the planet part contains. */
  lemma {:induction false} SplitMakeFileName(value: string, iso: string, ext: string)
    requires '.' !in ext
    requires '.' !in Stamp(iso) && '_' !in Stamp(iso)
    ensures SplitFileName(MakeFileName(value, iso, ext)) == Some(Parts(PlanetPart(value), Stamp(iso), ext))
  {
    var p, ts := PlanetPart(value), Stamp(iso);
    var name := MakeFileName(value, iso, ext);
    var dot := |p| + 1 + |ts|;
    assert name[dot + 1..] == ext;
    LastIndexOfAt(name, '.', dot);
    var head := name[..dot];
    assert head == p + "_" + ts;
    assert head[|p| + 1..] == ts;
    LastIndexOfAt(head, '_', |p|);
    assert name[|p| + 1..dot] == ts;
  }

  predicate IsDigit(c: char) {
    '0' <= c <= '9'
  }

  /** The shape `YYYY-MM-DDTHH:MM:SS.sssZ` that `toISOString` produces for
      years 0 to 9999. */
  predicate IsIsoInstant(s: string) {
    && |s| == 24
    && IsDigit(s[0]) && IsDigit(s[1]) && IsDigit(s[2]) && IsDigit(s[3]) && s[4] == '-'
    && IsDigit(s[5]) && IsDigit(s[6]) && s[7] == '-'
    && IsDigit(s[8]) && IsDigit(s[9]) && s[10] == 'T'
    && IsDigit(s[11]) && IsDigit(s[12]) && s[13] == ':'
    && IsDigit(s[14]) && IsDigit(s[15]) && s[16] == ':'
    && IsDigit(s[17]) && IsDigit(s[18]) && s[19] == '.'
    && IsDigit(s[20]) && IsDigit(s[21]) && IsDigit(s[22]) && s[23] == 'Z'
  }

  /** Removing a character whose first occurrence is known. */
  lemma {:induction false} RemoveFirst(x: string, z: string, c: char)
    requires c !in x
    ensures RemoveAll(x + [c] + z, c) == x + RemoveAll(z, c)
  {
    if x == [] {
      assert x + [c] + z == [c] + z;
      assert ([c] + z)[1..] == z;
    } else {
      assert (x + [c] + z)[1..] == x[1..] + [c] + z;
      RemoveFirst(x[1..], z, c);
      assert x == [x[0]] + x[1..];
    }
  }

  /** Removing a character that occurs exactly at two known places. */
  lemma {:induction false} RemoveBoth(x: string, y: string, z: string, c: char)
    requires c !in x && c !in y && c !in z
    ensures RemoveAll(x + [c] + y + [c] + z, c) == x + y + z
  {
    assert x + [c] + y + [c] + z == x + [c] + (y + [c] + z);
    RemoveFirst(x, y + [c] + z, c);
    RemoveFirst(y, z, c);
    RemoveAllAbsent(z, c);
  }

  /** For a well-formed instant the stamp is `YYYYMMDDTHHMMSS`: the date and
      time digits in order, with the `T` kept and the fraction dropped. */
  lemma {:induction false} StampOfInstant(iso: string)
    requires IsIsoInstant(iso)
    ensures Stamp(iso) == [iso[0], iso[1], iso[2], iso[3], iso[5], iso[6], iso[8], iso[9],
                           iso[10], iso[11], iso[12], iso[14], iso[15], iso[17], iso[18]]
    ensures |Stamp(iso)| == StampLength && Stamp(iso)[8] == 'T'
    ensures forall i :: 0 <= i < StampLength && i != 8 ==> IsDigit(Stamp(iso)[i])
    ensures '.' !in Stamp(iso) && '_' !in Stamp(iso)
  {
    var ts := Stamp(iso);
    assert ts == iso[..4] + iso[5..7] + iso[8..13] + iso[14..16] + iso[17..19] by {
      var compact := CompactInstant(iso);
      assert ts == compact[..StampLength];
    }
  }

  /** The instant with its `:` and `-` separators removed. */
  lemma CompactInstant(iso: string) returns (compact: string)
    requires IsIsoInstant(iso)
    ensures compact == RemoveAll(RemoveAll(iso, ':'), '-')
    ensures compact == iso[..4] + iso[5..7] + iso[8..13] + iso[14..16] + iso[17..]
  {
    var noColons := InstantWithoutColons(iso);
    var yyyy, mo, rest := iso[..4], iso[5..7], iso[8..13] + iso[14..16] + iso[17..];
    assert noColons == yyyy + ['-'] + mo + ['-'] + rest;
    assert '-' !in rest by {
      assert forall i :: 0 <= i < |rest| ==> rest[i] != '-';
    }
    RemoveBoth(yyyy, mo, rest, '-');
    compact := yyyy + mo + rest;
  }

  /** The instant with its two `:` separators removed. */
  lemma InstantWithoutColons(iso: string) returns (noColons: string)
    requires IsIsoInstant(iso)
    ensures noColons == RemoveAll(iso, ':')
    ensures noColons == iso[..13] + iso[14..16] + iso[17..]
  {
    var date, hh, rest := iso[..13], iso[14..16], iso[17..];
    assert iso == date + [':'] + hh + [':'] + rest;
    assert ':' !in date by {
      assert forall i :: 0 <= i < |date| ==> date[i] != ':';
    }
    RemoveBoth(date, hh, rest, ':');
    noColons := date + hh + rest;
  }
}
