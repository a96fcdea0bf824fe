/** `findPfnPrefix(rseName, proto)` of bin/MSStandalone/MSUnmerged/init.py: the
    prefix a site's storage.json gives for a protocol. The files that can be
    opened and parsed are the map `siteConf` from path to parsed document; a
    path it lacks is a file that cannot be opened or parsed. Any exception
    inside the `try` ends the search with the prefix found so far. */
module StorageConfig {
  import opened PyJson

  const SiteConfRoot := "/cvmfs/cms.cern.ch/SITECONF/"
  const ConfigFile := "/storage.json"

  /** Where the storage description of a site lives. */
  function ConfigPath(rseName: string): (path: string)
    ensures |path| == |SiteConfRoot| + |rseName| + |ConfigFile|
    ensures path[..|SiteConfRoot|] == SiteConfRoot
    ensures path[|SiteConfRoot|..|SiteConfRoot| + |rseName|] == rseName
    ensures path[|SiteConfRoot| + |rseName|..] == ConfigFile
  {
    SiteConfRoot + rseName + ConfigFile
  }

  /** Two sites never share a storage description. */
  lemma ConfigPathInjective(a: string, b: string)
    requires ConfigPath(a) == ConfigPath(b)
    ensures a == b
  {
    var pa, pb := ConfigPath(a), ConfigPath(b);
    assert |a| == |b|;
    assert a == pa[|SiteConfRoot|..|SiteConfRoot| + |a|] == pb[|SiteConfRoot|..|SiteConfRoot| + |b|] == b;
  }

  /** An entry of `protocols` for which `protoConfig['protocol']` does not raise. */
  predicate HasProtocol(pc: Json)
  {
    Subscript(pc, Key("protocol")).Ok?
  }

  /** An entry for `proto` that carries a prefix. */
  predicate Offers(pc: Json, proto: string)
  {
    pc.Obj? && Lookup(pc.fields, "protocol") == Some(Str(proto)) && Lookup(pc.fields, "prefix").Some?
  }

  /** The loop over the protocol entries, starting with `found` as the prefix so far. */
  function Scan(pcs: seq<Json>, proto: string, found: Option<Json>): Option<Json>
  {
    if pcs == [] then found
    else
      match Subscript(pcs[0], Key("protocol"))
      case Err(_) => found
      case Ok(p) =>
        if p == Str(proto) && Contains(pcs[0], "prefix") == Ok(true) && Subscript(pcs[0], Key("prefix")).Ok? then
          Scan(pcs[1..], proto, Some(Subscript(pcs[0], Key("prefix")).value))
        else Scan(pcs[1..], proto, found)
  }

  /** The whole of findPfnPrefix on the site's parsed storage description. */
  function PfnPrefix(siteConf: map<string, Json>, rseName: string, proto: string): Option<Json>
  {
    var path := ConfigPath(rseName);
    if path !in siteConf then None
    else
      match Dig(siteConf[path], [Pos(0), Key("protocols")])
      case Err(_) => None
      case Ok(protocols) =>
        match Iterate(protocols)
        case Err(_) => None
        case Ok(pcs) => Scan(pcs, proto, None)
  }

  /** findPfnPrefix, with its loop. */
  method FindPfnPrefix(siteConf: map<string, Json>, rseName: string, proto: string) returns (pfnPrefix: Option<Json>)
    ensures pfnPrefix == PfnPrefix(siteConf, rseName, proto)
  {
    pfnPrefix := None;
    var storageConfigPath := ConfigPath(rseName);
    if storageConfigPath !in siteConf {
      return;
    }
    var protocols := Dig(siteConf[storageConfigPath], [Pos(0), Key("protocols")]);
    if protocols.Err? {
      return;
    }
    var entries := Iterate(protocols.value);
    if entries.Err? {
      return;
    }
    var pcs := entries.value;
    var i := 0;
    while i < |pcs|
      invariant 0 <= i <= |pcs|
      invariant Scan(pcs, proto, None) == Scan(pcs[i..], proto, pfnPrefix)
    {
      var protoConfig := pcs[i];
      assert pcs[i..][0] == protoConfig && pcs[i..][1..] == pcs[i + 1..];
      var protocol := Subscript(protoConfig, Key("protocol"));
      if protocol.Err? {
        return;
      }
      if protocol.value == Str(proto) && Contains(protoConfig, "prefix") == Ok(true) {
        var prefix := Subscript(protoConfig, Key("prefix"));
        if prefix.Ok? {
          pfnPrefix := Some(prefix.value);
        }
      }
      i := i + 1;
    }
  }

  // ---------------------------------------------------------------- the last offer wins

  /** Reference definition, searching from the end: the prefix of the last
      entry that offers `proto`. */
  function LastOffer(pcs: seq<Json>, proto: string): (r: Option<Json>)
    ensures r.None? <==> forall k | 0 <= k < |pcs| :: !Offers(pcs[k], proto)
  {
    if pcs == [] then None
    else
      var last := pcs[|pcs| - 1];
      var init := pcs[..|pcs| - 1];
      assert forall k | 0 <= k < |init| :: init[k] == pcs[k];
      if Offers(last, proto) then Lookup(last.fields, "prefix")
      else LastOffer(init, proto)
  }

  /** The entry LastOffer answers with offers `proto`, and no later entry does. */
  lemma {:induction false} LastOfferIsLast(pcs: seq<Json>, proto: string) returns (k: nat)
    requires LastOffer(pcs, proto).Some?
    ensures k < |pcs| && Offers(pcs[k], proto) && Lookup(pcs[k].fields, "prefix") == LastOffer(pcs, proto)
    ensures forall j | k < j < |pcs| :: !Offers(pcs[j], proto)
  {
    var last := pcs[|pcs| - 1];
    if Offers(last, proto) {
      k := |pcs| - 1;
    } else {
      var init := pcs[..|pcs| - 1];
      k := LastOfferIsLast(init, proto);
      assert pcs[k] == init[k];
      forall j | k < j < |pcs|
        ensures !Offers(pcs[j], proto)
      {
        if j < |pcs| - 1 {
          assert pcs[j] == init[j];
        }
      }
    }
  }

  /** How many leading entries the loop gets through before `['protocol']` raises. */
  function Readable(pcs: seq<Json>): (n: nat)
    ensures n <= |pcs|
    ensures forall k | 0 <= k < n :: HasProtocol(pcs[k])
    ensures n < |pcs| ==> !HasProtocol(pcs[n])
  {
    if pcs == [] || !HasProtocol(pcs[0]) then 0
    else
      assert forall k | 1 <= k < |pcs| :: pcs[k] == pcs[1..][k - 1];
      1 + Readable(pcs[1..])
  }

  /** One entry of the loop agrees with the reference definition. */
  lemma ScanStep(pc: Json, proto: string, found: Option<Json>)
    requires HasProtocol(pc)
    ensures Scan([pc], proto, found) == (if Offers(pc, proto) then Lookup(pc.fields, "prefix") else found)
  {
    assert [pc][1..] == [];
  }

  /** The loop returns the prefix of the last entry offering `proto` among the
      entries before the first one whose `['protocol']` raises, or what it had
      found before the loop when there is none. */
  lemma {:induction false} ScanFindsLastOffer(pcs: seq<Json>, proto: string, found: Option<Json>)
    ensures Scan(pcs, proto, found)
            == (var r := LastOffer(pcs[..Readable(pcs)], proto); if r.Some? then r else found)
  {
    var n := Readable(pcs);
    if pcs == [] {
    } else if !HasProtocol(pcs[0]) {
      assert pcs[..n] == [];
    } else {
      var f' := if Offers(pcs[0], proto) then Lookup(pcs[0].fields, "prefix") else found;
      ScanHead(pcs, proto, found);
      var tail := pcs[1..];
      ScanFindsLastOffer(tail, proto, f');
      ReadableHead(pcs);
      LastOfferCons(pcs[0], tail[..Readable(tail)], proto);
    }
  }

  /** The loop's first turn on an entry that names its protocol. */
  lemma ScanHead(pcs: seq<Json>, proto: string, found: Option<Json>)
    requires pcs != [] && HasProtocol(pcs[0])
    ensures Scan(pcs, proto, found)
            == Scan(pcs[1..], proto, if Offers(pcs[0], proto) then Lookup(pcs[0].fields, "prefix") else found)
  {
    ScanStep(pcs[0], proto, found);
  }

  lemma ReadableHead(pcs: seq<Json>)
    requires pcs != [] && HasProtocol(pcs[0])
    ensures Readable(pcs) == 1 + Readable(pcs[1..])
    ensures pcs[..Readable(pcs)] == [pcs[0]] + pcs[1..][..Readable(pcs[1..])]
  {
  }

  lemma {:induction false} LastOfferCons(pc: Json, rest: seq<Json>, proto: string)
    ensures LastOffer([pc] + rest, proto)
            == (if LastOffer(rest, proto).Some? then LastOffer(rest, proto)
                else if Offers(pc, proto) then Lookup(pc.fields, "prefix") else None)
    decreases |rest|
  {
    var s := [pc] + rest;
    if rest == [] {
      assert s == [pc] && s[..0] == [];
    } else {
      assert s[|s| - 1] == rest[|rest| - 1];
      assert s[..|s| - 1] == [pc] + rest[..|rest| - 1];
      LastOfferCons(pc, rest[..|rest| - 1], proto);
    }
  }

  /** When every entry names its protocol, findPfnPrefix gives the prefix of the
      last entry offering `proto`, and None when no entry does. */
  lemma PfnPrefixIsLastOffer(siteConf: map<string, Json>, rseName: string, proto: string, pcs: seq<Json>)
    requires ConfigPath(rseName) in siteConf
    requires Dig(siteConf[ConfigPath(rseName)], [Pos(0), Key("protocols")]) == Ok(Arr(pcs))
    requires forall k | 0 <= k < |pcs| :: HasProtocol(pcs[k])
    ensures PfnPrefix(siteConf, rseName, proto) == LastOffer(pcs, proto)
  {
    ScanFindsLastOffer(pcs, proto, None);
    assert pcs[..Readable(pcs)] == pcs;
  }
}
