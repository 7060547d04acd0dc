/**
 * The server's lane-key helpers (server/utils/lane.ts): city and state normalisers
 * and the key `CITY,ST-CITY,ST` built from an origin and a destination.
 */
module ServerLane {
  import opened Text

  /** `normalizeCity`: trimmed and upper-cased. */
  function NormalizeCity(city: string): (r: string)
    ensures Trimmed(r)
  {
    TrimUpperCase(city)
  }

  /** `normalizeState`: trimmed and upper-cased, like a city. */
  function NormalizeState(state: string): (r: string)
    ensures Trimmed(r)
  {
    TrimUpperCase(state)
  }

  /** `laneKey(originCity, originState, destinationCity, destinationState)` */
  function LaneKey(originCity: string, originState: string, destinationCity: string, destinationState: string): string {
    var origin := NormalizeCity(originCity) + "," + NormalizeState(originState);
    var destination := NormalizeCity(destinationCity) + "," + NormalizeState(destinationState);
    origin + "-" + destination
  }

  lemma NormalizeCityIdempotent(city: string)
    ensures NormalizeCity(NormalizeCity(city)) == NormalizeCity(city)
  {
    TrimUpperCaseIdempotent(city);
  }

  lemma NormalizeStateIdempotent(state: string)
    ensures NormalizeState(NormalizeState(state)) == NormalizeState(state)
  {
    TrimUpperCaseIdempotent(state);
  }

  /** The key is the two normalised ends, each `CITY,ST`, joined by `-`. */
  lemma LaneKeyOfParts(oc: string, os: string, dc: string, ds: string, a: string, b: string, c: string, d: string)
    requires NormalizeCity(oc) == a && NormalizeState(os) == b && NormalizeCity(dc) == c && NormalizeState(ds) == d
    ensures LaneKey(oc, os, dc, ds) == (a + "," + b) + "-" + (c + "," + d)
  {
  }

  lemma KansasCityNormal(x: string)
    requires x == "  Kansas City  " || x == " Kansas City "
    ensures NormalizeCity(x) == "KANSAS CITY"
  {
    var k := "Kansas City";
    if x == "  Kansas City  " {
      assert x == "  " + k + "  ";
      TrimUpperCaseOfPadded("  ", k, "  ", "KANSAS CITY");
    } else {
      assert x == " " + k + " ";
      TrimUpperCaseOfPadded(" ", k, " ", "KANSAS CITY");
    }
  }

  lemma OmahaNormal(x: string)
    requires x == "Omaha"
    ensures NormalizeCity(x) == "OMAHA"
  {
    TrimUpperCaseOfTrimmed(x, "OMAHA");
  }

  lemma MissouriNormal(x: string)
    requires x == "mo" || x == "Mo"
    ensures NormalizeState(x) == "MO"
  {
    TrimUpperCaseOfTrimmed(x, "MO");
  }

  lemma NebraskaNormal(x: string)
    requires x == "ne"
    ensures NormalizeState(x) == "NE"
  {
    TrimUpperCaseOfTrimmed(x, "NE");
  }

  lemma KeyLiteral()
    ensures ("KANSAS CITY" + "," + "MO") + "-" + ("OMAHA" + "," + "NE") == "KANSAS CITY,MO-OMAHA,NE"
  {
  }

  /** The unit-test cases of the two normalisers. */
  lemma NormalizeExamples()
    ensures NormalizeCity("  Kansas City  ") == "KANSAS CITY"
    ensures NormalizeState("mo") == "MO"
  {
    KansasCityNormal("  Kansas City  ");
    MissouriNormal("mo");
  }

  lemma LaneKeyExampleOf(oc: string, os: string, dc: string, ds: string)
    requires oc == " Kansas City " && os == "Mo" && dc == "Omaha" && ds == "ne"
    ensures LaneKey(oc, os, dc, ds) == "KANSAS CITY,MO-OMAHA,NE"
  {
    KansasCityNormal(oc);
    MissouriNormal(os);
    OmahaNormal(dc);
    NebraskaNormal(ds);
    KeyLiteral();
    LaneKeyOfParts(oc, os, dc, ds, "KANSAS CITY", "MO", "OMAHA", "NE");
  }

  /** The unit-test case of the key. */
  lemma LaneKeyExample()
    ensures LaneKey(" Kansas City ", "Mo", "Omaha", "ne") == "KANSAS CITY,MO-OMAHA,NE"
  {
    LaneKeyExampleOf(" Kansas City ", "Mo", "Omaha", "ne");
  }

  /**
   * White-space padding or a different letter case in any argument gives the same key;
   * each argument has its own padding `pk`/`qk`, which may be empty.
   */
  lemma LaneKeyIgnoresPaddingAndCase(
    oc: string, os: string, dc: string, ds: string,
    oc': string, os': string, dc': string, ds': string,
    p1: string, q1: string, p2: string, q2: string,
    p3: string, q3: string, p4: string, q4: string)
    requires AllSpace(p1) && AllSpace(q1) && AllSpace(p2) && AllSpace(q2)
    requires AllSpace(p3) && AllSpace(q3) && AllSpace(p4) && AllSpace(q4)
    requires Upper(oc') == Upper(oc) && Upper(os') == Upper(os)
    requires Upper(dc') == Upper(dc) && Upper(ds') == Upper(ds)
    ensures LaneKey(p1 + oc' + q1, p2 + os' + q2, p3 + dc' + q3, p4 + ds' + q4) == LaneKey(oc, os, dc, ds)
  {
    TrimUpperCaseInvariant(p1, oc, oc', q1);
    TrimUpperCaseInvariant(p2, os, os', q2);
    TrimUpperCaseInvariant(p3, dc, dc', q3);
    TrimUpperCaseInvariant(p4, ds, ds', q4);
  }

  /**
   * When no normalised part contains a separator (',' or '-'), the key determines its four
   * normalised parts: two loads share a key exactly when their normalised origins and
   * destinations agree, in that order.
   */
  lemma LaneKeyInjective(
    oc: string, os: string, dc: string, ds: string,
    oc': string, os': string, dc': string, ds': string)
    requires ',' !in NormalizeCity(oc) && ',' !in NormalizeCity(oc') && ',' !in NormalizeCity(dc) && ',' !in NormalizeCity(dc')
    requires '-' !in NormalizeState(os) && '-' !in NormalizeState(os')
    ensures LaneKey(oc, os, dc, ds) == LaneKey(oc', os', dc', ds') <==>
      && NormalizeCity(oc) == NormalizeCity(oc') && NormalizeState(os) == NormalizeState(os')
      && NormalizeCity(dc) == NormalizeCity(dc') && NormalizeState(ds) == NormalizeState(ds')
  {
    var a, a' := NormalizeCity(oc), NormalizeCity(oc');
    var b, b' := NormalizeState(os), NormalizeState(os');
    var c, c' := NormalizeCity(dc), NormalizeCity(dc');
    var d, d' := NormalizeState(ds), NormalizeState(ds');
    LaneKeyOfParts(oc, os, dc, ds, a, b, c, d);
    LaneKeyOfParts(oc', os', dc', ds', a', b', c', d');
    if LaneKey(oc, os, dc, ds) == LaneKey(oc', os', dc', ds') {
      SplitFour(a, b, c, d, a', b', c', d', ',', '-', ',');
    }
  }
}
