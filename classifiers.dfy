/**
 * Device-kind and protocol classifiers of the NUT configurator.
 *
 * A candidate configuration is a string-to-string map; every classifier is a
 * total predicate over one candidate and treats a missing key as "no match".
 */
module Options {
  datatype Option<T> = None | Some(value: T)
}

module Classifiers {
  import opened Options

  /** One candidate device configuration: field name to field value. */
  type Config = map<string, string>

  /** The candidates discovered for one device, in discovery order. */
  type Configs = seq<Config>

  /** 2^64: the modulus of the source's unsigned `size_t` arithmetic. */
  const SizeModulus: int := 0x1_0000_0000_0000_0000

  /** MIB names that identify an ePDU. */
  const EpduMibs: set<string> :=
    {"eaton_epdu", "aphel_genesisII", "aphel_revelation", "pulizzi_switched1",
     "pulizzi_switched2", "emerson_avocent_pdu"}

  /** Driver names that speak SNMP. */
  const SnmpDrivers: set<string> := {"snmp-ups", "snmp-ups-dmf", "snmp-ups-old"}

  /** The one driver that speaks NetXML. */
  const NetXmlDriver: string := "netxml-ups"

  /** The characters handed to `find_last_of` by the ATS test. */
  const AtsChars: set<char> := {'a', 't', 's'}

  /** `sub` occurs in `s` at position `i`. */
  predicate OccursAt(s: string, sub: string, i: int)
  {
    0 <= i && i + |sub| <= |s| && s[i..i + |sub|] == sub
  }

  /** `std::string::find` from position `from`: the first position at which `sub` occurs. */
  function FindFrom(s: string, sub: string, from: nat): (r: Option<nat>)
    ensures r.Some? ==> from <= r.value && OccursAt(s, sub, r.value)
    ensures r.Some? ==> forall j :: from <= j < r.value ==> !OccursAt(s, sub, j)
    ensures r.None? ==> forall j :: from <= j ==> !OccursAt(s, sub, j)
    decreases |s| - from
  {
    if from + |sub| > |s| then None
    else if s[from..from + |sub|] == sub then Some(from)
    else FindFrom(s, sub, from + 1)
  }

  /** `std::string::find`: the first position at which `sub` occurs in `s`. */
  function Find(s: string, sub: string): (r: Option<nat>)
    ensures r.Some? ==> OccursAt(s, sub, r.value)
    ensures r.Some? ==> forall j :: 0 <= j < r.value ==> !OccursAt(s, sub, j)
    ensures r.None? ==> forall j :: 0 <= j ==> !OccursAt(s, sub, j)
  {
    FindFrom(s, sub, 0)
  }

  /** `std::string::find_last_of`: the last position of `s` holding one of `chars`. */
  function FindLastOf(s: string, chars: set<char>): (r: Option<nat>)
    ensures r.Some? ==> r.value < |s| && s[r.value] in chars
    ensures r.Some? ==> forall j :: r.value < j < |s| ==> s[j] !in chars
    ensures r.None? ==> forall j :: 0 <= j < |s| ==> s[j] !in chars
  {
    if s == [] then None
    else if s[|s| - 1] in chars then Some(|s| - 1)
    else FindLastOf(s[..|s| - 1], chars)
  }

  /** `size() - 3` on an unsigned 64-bit size: wraps around below three. */
  function SizeMinus3(n: nat): (r: nat)
    ensures n >= 3 ==> r == n - 3
    ensures n < 3 ==> r >= SizeModulus - 3
    ensures n < SizeModulus + 3 ==> r == (n - 3) % SizeModulus
  {
    if n >= 3 then n - 3 else n + SizeModulus - 3
  }

  /** ePDU: a known ePDU MIB, or "epdu" anywhere in the description. */
  predicate IsEpdu(c: Config)
    ensures IsEpdu(c) <==>
      ("mibs" in c && c["mibs"] in EpduMibs) || ("desc" in c && exists j :: OccursAt(c["desc"], "epdu", j))
  {
    ("mibs" in c && c["mibs"] in EpduMibs)
    || ("desc" in c && Find(c["desc"], "epdu").Some?)
  }

  /**
   * ATS, as written: the last of any of 'a', 't', 's' in the MIB name sits
   * three positions before its end. This is not a test for the suffix "ats".
   */
  predicate IsAts(c: Config)
    ensures IsAts(c) <==>
      "mibs" in c && |c["mibs"]| >= 3 &&
      c["mibs"][|c["mibs"]| - 3] in AtsChars &&
      c["mibs"][|c["mibs"]| - 2] !in AtsChars &&
      c["mibs"][|c["mibs"]| - 1] !in AtsChars
  {
    "mibs" in c &&
    var m := c["mibs"];
    var idx := FindLastOf(m, AtsChars);
    assert |m| >= 3 && m[|m| - 3] in AtsChars && m[|m| - 2] !in AtsChars && m[|m| - 1] !in AtsChars ==>
      idx.Some? && idx.value >= |m| - 3;
    idx.Some? && idx.value == SizeMinus3(|m|)
  }

  /** UPS: by exclusion, neither an ePDU nor an ATS; a candidate without MIB name and description is one. */
  predicate IsUps(c: Config)
    ensures "mibs" !in c && "desc" !in c ==> IsUps(c)
  {
    !(IsEpdu(c) || IsAts(c))
  }

  /** SNMP capable: the driver is one of the SNMP drivers; such a candidate is never NetXML capable. */
  predicate CanSnmp(c: Config)
    ensures CanSnmp(c) ==> !CanNetXml(c)
  {
    "driver" in c && c["driver"] in SnmpDrivers
  }

  /** NetXML capable: the driver is the NetXML driver, which is none of the SNMP drivers. */
  predicate CanNetXml(c: Config)
    ensures CanNetXml(c) ==> "driver" in c && c["driver"] !in SnmpDrivers
  {
    "driver" in c && c["driver"] == NetXmlDriver
  }

  /** Reference definition: the MIB name ends with the three letters "ats". */
  predicate HasAtsSuffix(c: Config)
  {
    "mibs" in c && |c["mibs"]| >= 3 && c["mibs"][|c["mibs"]| - 3..] == "ats"
  }

  /** No candidate without a MIB name, or with one shorter than three, is an ATS. */
  lemma IsAtsNeedsThreeChars(c: Config)
    requires "mibs" !in c || |c["mibs"]| < 3
    ensures !IsAts(c)
  {
  }

  /** A MIB name that really ends in "ats" is never classified as an ATS. */
  lemma AtsSuffixIsNotAts(c: Config)
    requires HasAtsSuffix(c)
    ensures !IsAts(c)
  {
    var m := c["mibs"];
    assert m[|m| - 1] == m[|m| - 3..][2] == 's';
  }

  /** Two witnesses that the ATS test and the suffix test disagree in both directions. */
  lemma IsAtsIsNotSuffixTest()
    ensures IsAts(map["mibs" := "xa12"]) && !HasAtsSuffix(map["mibs" := "xa12"])
    ensures !IsAts(map["mibs" := "eaton_ats"]) && HasAtsSuffix(map["mibs" := "eaton_ats"])
  {
    var x: Config := map["mibs" := "xa12"];
    assert x["mibs"][1] == 'a' && x["mibs"][2] == '1' && x["mibs"][3] == '2';
    var e: Config := map["mibs" := "eaton_ats"];
    assert e["mibs"][6..] == "ats";
    AtsSuffixIsNotAts(e);
  }

  /** A MIB name that really ends in "ats", on a candidate whose description does not mention "epdu", leaves it a UPS. */
  lemma AtsSuffixIsUps(c: Config)
    requires HasAtsSuffix(c) && ("desc" !in c || Find(c["desc"], "epdu").None?)
    ensures IsUps(c)
  {
    AtsSuffixIsNotAts(c);
  }
}
