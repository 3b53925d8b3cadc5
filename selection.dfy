/**
 * Choice of one configuration among the candidates discovered for a device.
 *
 * Results are positions in the candidate list; `None` stands for the source's
 * end iterator ("nothing chosen").
 */
module Selection {
  import opened Options
  import opened Classifiers

  /** `std::find_if`: the first candidate satisfying `p`. */
  function FindIf(cs: Configs, p: Config -> bool): (r: Option<nat>)
    ensures r.Some? ==> r.value < |cs| && p(cs[r.value])
    ensures r.Some? ==> forall j :: 0 <= j < r.value ==> !p(cs[j])
    ensures r.None? ==> forall j :: 0 <= j < |cs| ==> !p(cs[j])
  {
    if cs == [] then None
    else if p(cs[0]) then Some(0)
    else
      match FindIf(cs[1..], p)
      case None => None
      case Some(i) => Some(i + 1)
  }

  /** `std::any_of`: some candidate satisfies `p`, exactly when `std::find_if` finds one. */
  predicate AnyOf(cs: Configs, p: Config -> bool)
    ensures AnyOf(cs, p) <==> FindIf(cs, p).Some?
  {
    exists j :: 0 <= j < |cs| && p(cs[j])
  }

  /** A pattern that a whole MIB name must match (`std::regex_match`). */
  datatype MibPattern =
    | Exactly(mib: string)  // a literal regex without metacharacters
    | NonEmpty              // ".+", with line terminators taken as ordinary characters

  predicate FullMatch(pattern: MibPattern, mibs: string)
  {
    match pattern
    case Exactly(m) => mibs == m
    case NonEmpty => mibs != ""
  }

  /** The candidate has a MIB name and it matches `pattern`. */
  predicate MibsMatch(pattern: MibPattern, c: Config)
  {
    "mibs" in c && FullMatch(pattern, c["mibs"])
  }

  /** The candidate's MIB name is exactly `m`. */
  predicate HasMibs(c: Config, m: string)
  {
    "mibs" in c && c["mibs"] == m
  }

  /** The candidate has a non-empty MIB name. */
  predicate HasNonEmptyMibs(c: Config)
  {
    "mibs" in c && c["mibs"] != ""
  }

  /** MIB patterns in decreasing order of preference. */
  const SnmpMibPriority: seq<MibPattern> := [Exactly("pw"), Exactly("mge"), NonEmpty]

  /**
   * For the first pattern that some candidate matches, the first candidate
   * matching it; pattern order outranks list order.
   */
  function FirstByPriority(cs: Configs, patterns: seq<MibPattern>): (r: Option<nat>)
    ensures r.Some? ==> r.value < |cs|
    ensures r.Some? ==> exists k :: 0 <= k < |patterns| && FirstMatchOf(cs, patterns, k, r.value)
    ensures r.None? ==> forall k, j :: 0 <= k < |patterns| && 0 <= j < |cs| ==> !MibsMatch(patterns[k], cs[j])
  {
    if patterns == [] then None
    else
      match FindIf(cs, c => MibsMatch(patterns[0], c))
      case Some(i) =>
        assert FirstMatchOf(cs, patterns, 0, i);
        Some(i)
      case None =>
        var r := FirstByPriority(cs, patterns[1..]);
        if r.Some? then
          assert forall k :: 0 <= k < |patterns| - 1 && FirstMatchOf(cs, patterns[1..], k, r.value) ==>
            FirstMatchOf(cs, patterns, k + 1, r.value);
          r
        else
          r
  }

  /**
   * Candidate `i` is the first to match pattern `k`, and no candidate matches
   * any pattern before `k`.
   */
  ghost predicate FirstMatchOf(cs: Configs, patterns: seq<MibPattern>, k: nat, i: nat)
    requires k < |patterns| && i < |cs|
  {
    && MibsMatch(patterns[k], cs[i])
    && (forall j :: 0 <= j < i ==> !MibsMatch(patterns[k], cs[j]))
    && (forall k', j :: 0 <= k' < k && 0 <= j < |cs| ==> !MibsMatch(patterns[k'], cs[j]))
  }

  /**
   * `getBestSnmpMibConfiguration`: the chosen candidate always has a non-empty
   * MIB name, and nothing is chosen exactly when no candidate has one.
   */
  function BestSnmpMib(cs: Configs): (r: Option<nat>)
    ensures r.Some? ==> r.value < |cs| && HasNonEmptyMibs(cs[r.value])
    ensures r.None? <==> forall j :: 0 <= j < |cs| ==> !HasNonEmptyMibs(cs[j])
  {
    var pats := SnmpMibPriority;
    assert forall k, c :: 0 <= k < |pats| && MibsMatch(pats[k], c) ==> HasNonEmptyMibs(c);
    assert forall c :: MibsMatch(pats[2], c) == HasNonEmptyMibs(c);
    FirstByPriority(cs, pats)
  }

  /** `getNetXMLConfiguration`: the first candidate using the NetXML driver. */
  function NetXmlConfiguration(cs: Configs): (r: Option<nat>)
    ensures r.Some? ==> r.value < |cs| && CanNetXml(cs[r.value])
    ensures r.Some? ==> forall j :: 0 <= j < r.value ==> !CanNetXml(cs[j])
    ensures r.None? <==> !AnyOf(cs, CanNetXml)
  {
    FindIf(cs, CanNetXml)
  }

  /** `configs.begin()`: the first candidate, or the end of an empty list. */
  function First(cs: Configs): (r: Option<nat>)
    ensures r.None? <==> cs == []
    ensures r.Some? ==> r.value == 0
  {
    if cs == [] then None else Some(0)
  }

  /** `selectBestConfiguration`: the fixed branch policy over aggregate classifications. */
  function SelectBest(cs: Configs): (r: Option<nat>)
    ensures r.Some? ==> r.value < |cs|
  {
    var anyEpdu := AnyOf(cs, IsEpdu);
    var anyAts := AnyOf(cs, IsAts);
    var anySnmp := AnyOf(cs, CanSnmp);
    var anyNetXml := AnyOf(cs, CanNetXml);
    if anySnmp && (anyEpdu || anyAts) then BestSnmpMib(cs)
    else if anyNetXml then NetXmlConfiguration(cs)
    else if anySnmp then BestSnmpMib(cs)
    else First(cs)
  }

  /**
   * The SNMP MIB preference: the first "pw" candidate; failing that the first
   * "mge" candidate; failing that the first with a non-empty MIB name; else none.
   */
  lemma BestSnmpMibPreference(cs: Configs)
    ensures var r := BestSnmpMib(cs);
      (exists j :: 0 <= j < |cs| && HasMibs(cs[j], "pw")) ==>
        r.Some? && HasMibs(cs[r.value], "pw") &&
        forall j :: 0 <= j < r.value ==> !HasMibs(cs[j], "pw")
    ensures var r := BestSnmpMib(cs);
      (forall j :: 0 <= j < |cs| ==> !HasMibs(cs[j], "pw")) &&
      (exists j :: 0 <= j < |cs| && HasMibs(cs[j], "mge")) ==>
        r.Some? && HasMibs(cs[r.value], "mge") &&
        forall j :: 0 <= j < r.value ==> !HasMibs(cs[j], "mge")
    ensures var r := BestSnmpMib(cs);
      (forall j :: 0 <= j < |cs| ==> !HasMibs(cs[j], "pw") && !HasMibs(cs[j], "mge")) &&
      (exists j :: 0 <= j < |cs| && HasNonEmptyMibs(cs[j])) ==>
        r.Some? && HasNonEmptyMibs(cs[r.value]) &&
        forall j :: 0 <= j < r.value ==> !HasNonEmptyMibs(cs[j])
  {
    var r := BestSnmpMib(cs);
    var pats := SnmpMibPriority;
    assert forall c :: MibsMatch(pats[0], c) == HasMibs(c, "pw");
    assert forall c :: MibsMatch(pats[1], c) == HasMibs(c, "mge");
    assert forall c :: MibsMatch(pats[2], c) == HasNonEmptyMibs(c);
    if r.Some? {
      var k :| 0 <= k < 3 && FirstMatchOf(cs, pats, k, r.value);
    } else {
      assert forall j :: 0 <= j < |cs| ==> !MibsMatch(pats[2], cs[j]);
    }
  }

  /** Selection never fails on a non-empty list unless it took an SNMP branch and no MIB name is non-empty. */
  lemma SelectBestNoneIff(cs: Configs)
    ensures SelectBest(cs).None? <==>
      cs == [] ||
      (AnyOf(cs, CanSnmp) && ((AnyOf(cs, IsEpdu) || AnyOf(cs, IsAts)) || !AnyOf(cs, CanNetXml)) &&
       forall j :: 0 <= j < |cs| ==> !HasNonEmptyMibs(cs[j]))
  {
    BestSnmpMibPreference(cs);
  }

  /** With no SNMP and no NetXML candidate, the first candidate is used. */
  lemma SelectBestFallsBackToFirst(cs: Configs)
    requires cs != []
    requires forall j :: 0 <= j < |cs| ==> !CanSnmp(cs[j]) && !CanNetXml(cs[j])
    ensures SelectBest(cs) == Some(0)
  {
  }

  /** An SNMP-capable ePDU or ATS is configured through SNMP even when a NetXML candidate exists. */
  lemma SnmpEpduOrAtsOutranksNetXml(cs: Configs, s: nat, e: nat)
    requires s < |cs| && e < |cs|
    requires CanSnmp(cs[s]) && (IsEpdu(cs[e]) || IsAts(cs[e]))
    ensures SelectBest(cs) == BestSnmpMib(cs)
  {
  }

  /** Otherwise a NetXML candidate wins, and then selection never fails. */
  lemma NetXmlChosenOtherwise(cs: Configs, n: nat)
    requires n < |cs| && CanNetXml(cs[n])
    requires !AnyOf(cs, CanSnmp) || (!AnyOf(cs, IsEpdu) && !AnyOf(cs, IsAts))
    ensures SelectBest(cs).Some? && CanNetXml(cs[SelectBest(cs).value])
    ensures forall j :: 0 <= j < SelectBest(cs).value ==> !CanNetXml(cs[j])
  {
  }

  /** Without NetXML and without ePDU/ATS, SNMP candidates use the MIB preference. */
  lemma SnmpChosenOtherwise(cs: Configs, s: nat)
    requires s < |cs| && CanSnmp(cs[s])
    requires !AnyOf(cs, CanNetXml)
    ensures SelectBest(cs) == BestSnmpMib(cs)
  {
  }

  /** Full matching: a MIB name that only starts with "pw" or "mge" is left to the catch-all. */
  lemma FullMatchExample()
    ensures BestSnmpMib([map["mibs" := "mge-other"], map["mibs" := "pw-x"], map["mibs" := "other-mib"]]) == Some(0)
    ensures BestSnmpMib([map["mibs" := "ietf"], map["mibs" := "mge"], map["mibs" := "pw"]]) == Some(2)
  {
    var a: Configs := [map["mibs" := "mge-other"], map["mibs" := "pw-x"], map["mibs" := "other-mib"]];
    assert forall j :: 0 <= j < |a| ==> !HasMibs(a[j], "pw") && !HasMibs(a[j], "mge");
    assert HasNonEmptyMibs(a[0]);
    BestSnmpMibPreference(a);
    var b: Configs := [map["mibs" := "ietf"], map["mibs" := "mge"], map["mibs" := "pw"]];
    assert HasMibs(b[2], "pw") && !HasMibs(b[0], "pw") && !HasMibs(b[1], "pw");
    BestSnmpMibPreference(b);
  }
}
