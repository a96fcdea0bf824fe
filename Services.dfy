/** The service addresses the two reporting scripts build from their
    command-line options: `"https://" + host` when a host is given, a fixed
    default otherwise. */
module Services {
  import opened PyJson

  const Scheme := "https://"

  /** The production instance couchdbWfInfo.py talks to by default. */
  const Production := "https://cmsweb.cern.ch"

  /** The test instance fetchACDCs.py talks to by default. */
  const Testbed := "https://cmsweb-testbed.cern.ch"

  /** `"https://" + host if host else default`: an absent or empty host selects the default. */
  function ServiceUrl(host: Option<string>, default: string): (url: string)
    ensures TruthyArg(host) ==> IsPrefix(Scheme, url) && url[|Scheme|..] == host.value
    ensures !TruthyArg(host) ==> url == default
  {
    if TruthyArg(host) then Scheme + host.value else default
  }

  /** Different hosts give different addresses; no host gives the default. */
  lemma ServiceUrlInjective(a: Option<string>, b: Option<string>, default: string)
    requires TruthyArg(a) && TruthyArg(b)
    requires ServiceUrl(a, default) == ServiceUrl(b, default)
    ensures a == b
  {
    assert a.value == ServiceUrl(a, default)[|Scheme|..] == ServiceUrl(b, default)[|Scheme|..] == b.value;
  }
}
