/**
 * Sort-then-take-first choices: the user rules of src/lib/device-fingerprint-classification.ts
 * and the DHCP leases of src/lib/ip-assignment.ts; and which fingerprints may name a model.
 */
module Choices {
  import opened Sequences
  import opened Sorting

  // ---------- user fingerprint rules ----------

  datatype Rule = Rule(exact: bool, pattern: string, classification: string, priority: int, enabled: bool)

  /** Lower case and locale order, as the runtime provides them. */
  datatype Locale = Locale(lower: string -> string, atMost: (string, string) -> bool)

  ghost predicate ValidLocale(l: Locale) {
    TotalPreorder(l.atMost)
  }

  predicate Contains(s: string, part: string) {
    exists i :: 0 <= i <= |s| - |part| && part <= s[i..]
  }

  predicate RuleMatches(l: Locale, raw: string, r: Rule) {
    var pattern := Trim(r.pattern);
    && pattern != ""
    && (if r.exact then l.lower(raw) == l.lower(pattern) else Contains(l.lower(raw), l.lower(pattern)))
  }

  function RuleOrder(l: Locale): (Rule, Rule) -> bool {
    (a: Rule, b: Rule) => a.priority < b.priority || (a.priority == b.priority && l.atMost(a.pattern, b.pattern))
  }

  function Enabled(): Rule -> bool {
    (r: Rule) => r.enabled
  }

  function Matching(l: Locale, raw: string): Rule -> bool {
    (r: Rule) => RuleMatches(l, raw, r)
  }

  function Applicable(l: Locale, raw: string): Rule -> bool {
    (r: Rule) => r.enabled && RuleMatches(l, raw, r)
  }

  lemma RuleOrderIsTotal(l: Locale)
    requires ValidLocale(l)
    ensures TotalPreorder(RuleOrder(l))
  {
    var le := RuleOrder(l);
    forall a, b ensures le(a, b) || le(b, a) {
      assert l.atMost(a.pattern, b.pattern) || l.atMost(b.pattern, a.pattern);
    }
    forall a, b, c | le(a, b) && le(b, c) ensures le(a, c) {
      assert l.atMost(a.pattern, b.pattern) && l.atMost(b.pattern, c.pattern) ==> l.atMost(a.pattern, c.pattern);
    }
  }

  lemma {:induction false} FilterTwice(l: Locale, raw: string, rules: seq<Rule>)
    ensures Filter(Matching(l, raw), Filter(Enabled(), rules)) == Filter(Applicable(l, raw), rules)
  {
    if rules != [] {
      FilterTwice(l, raw, rules[1..]);
      FilterCons(Matching(l, raw), rules[0], Filter(Enabled(), rules[1..]));
    }
  }

  /** An enabled rule that says something of the text: the same text, or part of it, whatever the case. */
  predicate Fires(l: Locale, raw: string, r: Rule) {
    && r.enabled && Trim(r.pattern) != ""
    && (r.exact ==> l.lower(raw) == l.lower(Trim(r.pattern)))
    && (!r.exact ==> Contains(l.lower(raw), l.lower(Trim(r.pattern))))
  }

  /** Rule `i` fires, and each other that does comes after it: by priority, then pattern, then position. */
  predicate FirstToFire(l: Locale, raw: string, rules: seq<Rule>, i: nat)
    requires i < |rules|
  {
    && Fires(l, raw, rules[i])
    && forall k :: 0 <= k < |rules| && k != i && Fires(l, raw, rules[k]) ==>
         || rules[i].priority < rules[k].priority
         || (rules[i].priority == rules[k].priority
             && l.atMost(rules[i].pattern, rules[k].pattern)
             && (l.atMost(rules[k].pattern, rules[i].pattern) ==> i < k))
  }

  lemma FiresIsApplicable(l: Locale, raw: string, rules: seq<Rule>)
    ensures forall k :: 0 <= k < |rules| ==> (Fires(l, raw, rules[k]) <==> Applicable(l, raw)(rules[k]))
  {
  }

  lemma BestFires(l: Locale, raw: string, rules: seq<Rule>, i: nat)
    requires BestAccepted(RuleOrder(l), Applicable(l, raw), rules, i)
    ensures FirstToFire(l, raw, rules, i)
  {
    FiresIsApplicable(l, raw, rules);
    forall k | 0 <= k < |rules| && k != i && Fires(l, raw, rules[k])
      ensures || rules[i].priority < rules[k].priority
              || (rules[i].priority == rules[k].priority
                  && l.atMost(rules[i].pattern, rules[k].pattern)
                  && (l.atMost(rules[k].pattern, rules[i].pattern) ==> i < k))
    {
      assert Applicable(l, raw)(rules[k]);
      assert RuleOrder(l)(rules[i], rules[k]);
      assert k < i ==> !RuleOrder(l)(rules[k], rules[i]);
    }
  }

  /**
   * `applyUserFingerprintRules`: the rule applied is the least by priority, pattern and original
   * position among the enabled rules that match; none exactly when no enabled rule matches.
   */
  method ApplyUserRules(l: Locale, labelText: string, rules: seq<Rule>) returns (r: Option<string>)
    requires ValidLocale(l)
    ensures Trim(labelText) == "" ==> r == None
    ensures Trim(labelText) != "" ==>
              (r.None? <==> forall k :: 0 <= k < |rules| ==> !Fires(l, Trim(labelText), rules[k]))
    ensures r.Some? ==>
              exists i: nat :: i < |rules| && FirstToFire(l, Trim(labelText), rules, i)
                          && r.value == rules[i].classification
  {
    var raw := Trim(labelText);
    var le := RuleOrder(l);
    RuleOrderIsTotal(l);
    var ordered := Sort(le, Filter(Enabled(), rules));
    ghost var best := Filter(Matching(l, raw), ordered);
    FilterSort(le, Matching(l, raw), Filter(Enabled(), rules));
    FilterTwice(l, raw, rules);
    FilterEmpty(Applicable(l, raw), rules);
    SortIs(le, Filter(Applicable(l, raw), rules));
    if Filter(Applicable(l, raw), rules) != [] {
      ghost var i := HeadOfSortedFilter(le, Applicable(l, raw), rules);
      BestFires(l, raw, rules, i);
    }
    FiresIsApplicable(l, raw, rules);
    if raw == "" {
      return None;
    }
    for i := 0 to |ordered|
      invariant Filter(Matching(l, raw), ordered[i..]) == best
    {
      assert ordered[i..][1..] == ordered[i + 1..];
      var pattern := Trim(ordered[i].pattern);
      if pattern != "" {
        if ordered[i].exact {
          if l.lower(raw) == l.lower(pattern) {
            return Some(ordered[i].classification);
          }
        } else if Contains(l.lower(raw), l.lower(pattern)) {
          return Some(ordered[i].classification);
        }
      }
    }
    r := None;
  }

  // ---------- DHCP leases ----------

  datatype Lease = Lease(ip: string, mac: string, lastSynced: Option<string>)

  /** `macToHex`: hexadecimal digits only, upper case, padded with zeros and cut to twelve. */
  function MacHex(mac: string): string {
    var digits := HexOnly(mac);
    if |digits| >= 12 then digits[..12] else digits + seq(12 - |digits|, i => '0')
  }

  lemma {:induction false} HexOnlyIgnores(a: string, c: char, b: string)
    requires !IsHexDigit(c)
    ensures HexOnly(a + [c] + b) == HexOnly(a + b)
  {
    if a == "" {
      assert a + [c] + b == [c] + b && a + b == b;
      assert ([c] + b)[1..] == b;
    } else {
      HexOnlyIgnores(a[1..], c, b);
      assert (a + [c] + b)[1..] == a[1..] + [c] + b;
      assert (a + b)[1..] == a[1..] + b;
    }
  }

  lemma {:induction false} HexOnlyShape(s: string)
    ensures forall i :: 0 <= i < |HexOnly(s)| ==> '0' <= HexOnly(s)[i] <= '9' || 'A' <= HexOnly(s)[i] <= 'F'
  {
    if s != "" {
      HexOnlyShape(s[1..]);
    }
  }

  /** Twelve upper-case hexadecimal digits, the same however the address is punctuated. */
  lemma MacHexIgnoresPunctuation(a: string, c: char, b: string)
    requires !IsHexDigit(c)
    ensures MacHex(a + [c] + b) == MacHex(a + b)
    ensures |MacHex(a + b)| == 12
    ensures forall i :: 0 <= i < 12 ==> '0' <= MacHex(a + b)[i] <= '9' || 'A' <= MacHex(a + b)[i] <= 'F'
  {
    HexOnlyIgnores(a, c, b);
    HexOnlyShape(a + b);
  }

  /** An address of hexadecimal digits in any case: they come back upper-case, padded with zeros, cut at twelve. */
  lemma MacHexKeepsDigits(mac: string)
    requires forall i :: 0 <= i < |mac| ==> IsHexDigit(mac[i])
    ensures |MacHex(mac)| == 12
    ensures forall i :: 0 <= i < 12 ==>
              MacHex(mac)[i] == (if i >= |mac| then '0'
                                 else if 'a' <= mac[i] <= 'f' then mac[i] - 'a' + 'A' else mac[i])
  {
    HexOnlyKeeps(mac);
  }

  lemma {:induction false} HexOnlyKeeps(s: string)
    requires forall i :: 0 <= i < |s| ==> IsHexDigit(s[i])
    ensures |HexOnly(s)| == |s|
    ensures forall i :: 0 <= i < |s| ==> HexOnly(s)[i] == if 'a' <= s[i] <= 'f' then s[i] - 'a' + 'A' else s[i]
  {
    if s != "" {
      HexOnlyKeeps(s[1..]);
    }
  }

  const ZERO_MAC := "000000000000"

  function HostMacHex(mac: Option<string>): Option<string> {
    if mac.None? || Trim(mac.value) == "" || MacHex(mac.value) == ZERO_MAC then None else Some(MacHex(mac.value))
  }

  predicate SameMac(hex: Option<string>, lease: Lease) {
    hex.Some? && lease.mac != "" && MacHex(lease.mac) == hex.value
  }

  /** The lease has the host's hardware address: both are given, neither is all zeros, and they are the same. */
  predicate SharesMac(mac: Option<string>, lease: Lease) {
    && mac.Some? && Trim(mac.value) != "" && lease.mac != ""
    && MacHex(mac.value) == MacHex(lease.mac) && MacHex(mac.value) != "000000000000"
  }

  lemma SameMacShares(mac: Option<string>, lease: Lease)
    ensures SameMac(HostMacHex(mac), lease) <==> SharesMac(mac, lease)
  {
  }

  function WithMac(hex: Option<string>): Lease -> bool {
    (lease: Lease) => SameMac(hex, lease)
  }

  function WithIp(ip: string): Lease -> bool {
    (lease: Lease) => lease.ip == ip
  }

  function Synced(lease: Lease): string {
    if lease.lastSynced.Some? then lease.lastSynced.value else ""
  }

  /** Most recently synced first. */
  function Recent(l: Locale): (Lease, Lease) -> bool {
    (a: Lease, b: Lease) => l.atMost(Synced(b), Synced(a))
  }

  lemma RecentIsTotal(l: Locale)
    requires ValidLocale(l)
    ensures TotalPreorder(Recent(l))
  {
    var le := Recent(l);
    forall a, b ensures le(a, b) || le(b, a) {
      assert l.atMost(Synced(a), Synced(b)) || l.atMost(Synced(b), Synced(a));
    }
    forall a, b, c | le(a, b) && le(b, c) ensures le(a, c) {
      assert l.atMost(Synced(c), Synced(b)) && l.atMost(Synced(b), Synced(a)) ==> l.atMost(Synced(c), Synced(a));
    }
  }

  function FindFirst<T>(p: T -> bool, s: seq<T>): Option<T> {
    if s == [] then None else if p(s[0]) then Some(s[0]) else FindFirst(p, s[1..])
  }

  /** Position `i` is the first the test accepts. */
  ghost predicate FirstAccepted<T>(p: T -> bool, s: seq<T>, i: nat) {
    i < |s| && p(s[i]) && forall k :: 0 <= k < i ==> !p(s[k])
  }

  lemma {:induction false} FindFirstIs<T>(p: T -> bool, s: seq<T>)
    ensures FindFirst(p, s).None? <==> forall k :: 0 <= k < |s| ==> !p(s[k])
    ensures FindFirst(p, s).Some? ==> exists i: nat :: FirstAccepted(p, s, i) && FindFirst(p, s).value == s[i]
  {
    if s != [] {
      FindFirstIs(p, s[1..]);
      if p(s[0]) {
        assert FirstAccepted(p, s, 0);
      } else {
        if FindFirst(p, s).Some? {
          var i: nat :| FirstAccepted(p, s[1..], i) && FindFirst(p, s[1..]).value == s[1..][i];
          assert forall k :: 0 <= k < i + 1 ==> k == 0 || s[k] == s[1..][k - 1];
          assert FirstAccepted(p, s, i + 1);
        } else {
          assert forall k :: 0 <= k < |s| ==> k == 0 || s[k] == s[1..][k - 1];
        }
      }
    }
  }

  /** The choice among the leases with the host's hardware address. */
  function ChooseByMac(l: Locale, ip: string, leases: seq<Lease>): Lease
    requires leases != [] && |Sort(Recent(l), leases)| > 0
  {
    var exact := FindFirst(WithIp(ip), leases);
    if exact.Some? then exact.value else Sort(Recent(l), leases)[0]
  }

  lemma SortKeepsSome(l: Locale, leases: seq<Lease>)
    requires ValidLocale(l) && leases != []
    ensures |Sort(Recent(l), leases)| > 0
  {
    RecentIsTotal(l);
    SortIs(Recent(l), leases);
  }

  function ResolveLease(l: Locale, ip: string, mac: Option<string>, leases: seq<Lease>): Option<Lease>
    requires ValidLocale(l)
  {
    var hex := HostMacHex(mac);
    var withMac := Filter(WithMac(hex), leases);
    if withMac != [] then
      SortKeepsSome(l, withMac);
      Some(ChooseByMac(l, ip, withMac))
    else FindFirst(WithIp(ip), leases)
  }

  /** Both the host's address and hardware address. */
  function WithMacAndIp(hex: Option<string>, ip: string): Lease -> bool {
    (lease: Lease) => SameMac(hex, lease) && lease.ip == ip
  }

  lemma {:induction false} FindInFiltered(hex: Option<string>, ip: string, leases: seq<Lease>)
    ensures FindFirst(WithIp(ip), Filter(WithMac(hex), leases)) == FindFirst(WithMacAndIp(hex, ip), leases)
  {
    if leases != [] {
      FindInFiltered(hex, ip, leases[1..]);
      var rest := Filter(WithMac(hex), leases[1..]);
      if SameMac(hex, leases[0]) {
        assert Filter(WithMac(hex), leases)[1..] == rest;
      }
    }
  }

  /** Position `i` is the first lease that shares the address and has the host's IP. */
  ghost predicate FirstWithBoth(ip: string, mac: Option<string>, leases: seq<Lease>, i: nat) {
    && i < |leases| && SharesMac(mac, leases[i]) && leases[i].ip == ip
    && forall k :: 0 <= k < i ==> !(SharesMac(mac, leases[k]) && leases[k].ip == ip)
  }

  /** The time of the last synchronisation; none is the earliest. */
  function SyncText(lease: Lease): string {
    match lease.lastSynced
    case None => ""
    case Some(t) => t
  }

  /** Position `i` shares the address, no other that does is more recent, and no earlier one is as recent. */
  ghost predicate MostRecent(l: Locale, mac: Option<string>, leases: seq<Lease>, i: nat) {
    && i < |leases| && SharesMac(mac, leases[i])
    && (forall k :: 0 <= k < |leases| && SharesMac(mac, leases[k]) ==>
          l.atMost(SyncText(leases[k]), SyncText(leases[i])))
    && (forall k :: 0 <= k < i && SharesMac(mac, leases[k]) ==>
          !l.atMost(SyncText(leases[i]), SyncText(leases[k])))
  }

  lemma BestIsMostRecent(l: Locale, mac: Option<string>, leases: seq<Lease>, i: nat)
    requires BestAccepted(Recent(l), WithMac(HostMacHex(mac)), leases, i)
    ensures MostRecent(l, mac, leases, i)
  {
    hide HostMacHex, SharesMac, MacHex;
    var hex := HostMacHex(mac);
    forall k | 0 <= k < |leases| ensures SameMac(hex, leases[k]) <==> SharesMac(mac, leases[k]) {
      SameMacShares(mac, leases[k]);
    }
    forall k | 0 <= k < |leases| && SharesMac(mac, leases[k])
      ensures l.atMost(SyncText(leases[k]), SyncText(leases[i]))
      ensures k < i ==> !l.atMost(SyncText(leases[i]), SyncText(leases[k]))
    {
      assert WithMac(hex)(leases[k]);
      assert SyncText(leases[k]) == Synced(leases[k]) && SyncText(leases[i]) == Synced(leases[i]);
      assert Recent(l)(leases[i], leases[k]);
      assert k < i ==> !Recent(l)(leases[k], leases[i]);
    }
  }

  lemma FirstIsFirstWithBoth(ip: string, mac: Option<string>, leases: seq<Lease>, i: nat)
    requires FirstAccepted(WithMacAndIp(HostMacHex(mac), ip), leases, i)
    ensures FirstWithBoth(ip, mac, leases, i)
  {
    hide HostMacHex, SharesMac, MacHex, SameMac;
    forall k | 0 <= k < |leases| ensures SameMac(HostMacHex(mac), leases[k]) <==> SharesMac(mac, leases[k]) {
      SameMacShares(mac, leases[k]);
    }
    forall k | 0 <= k < i ensures !(SharesMac(mac, leases[k]) && leases[k].ip == ip) {
      assert !WithMacAndIp(HostMacHex(mac), ip)(leases[k]);
    }
  }

  /** What is chosen among leases that share the address, when there are any. */
  lemma ChosenByMac(l: Locale, ip: string, mac: Option<string>, leases: seq<Lease>)
    requires ValidLocale(l)
    ensures var withMac := Filter(WithMac(HostMacHex(mac)), leases);
            && (withMac == [] <==> forall k :: 0 <= k < |leases| ==> !SharesMac(mac, leases[k]))
            && (withMac != [] ==>
                  && |Sort(Recent(l), withMac)| > 0
                  && var chosen := ChooseByMac(l, ip, withMac);
                     && ((exists k :: 0 <= k < |leases| && SharesMac(mac, leases[k]) && leases[k].ip == ip) ==>
                           exists i: nat :: FirstWithBoth(ip, mac, leases, i) && chosen == leases[i])
                     && ((forall k :: 0 <= k < |leases| ==> !(SharesMac(mac, leases[k]) && leases[k].ip == ip)) ==>
                           exists i: nat :: MostRecent(l, mac, leases, i) && chosen == leases[i]))
  {
    hide HostMacHex, SharesMac, MacHex, SameMac, Sort, MostRecent, FirstWithBoth;
    var hex := HostMacHex(mac);
    var withMac := Filter(WithMac(hex), leases);
    forall k | 0 <= k < |leases| ensures SameMac(hex, leases[k]) <==> SharesMac(mac, leases[k]) {
      SameMacShares(mac, leases[k]);
    }
    FilterEmpty(WithMac(hex), leases);
    assert withMac == [] <==> forall k :: 0 <= k < |leases| ==> !SharesMac(mac, leases[k]) by {
      forall k | 0 <= k < |leases| ensures WithMac(hex)(leases[k]) <==> SharesMac(mac, leases[k]) {
      }
    }
    if withMac != [] {
      SortKeepsSome(l, withMac);
      RecentIsTotal(l);
      FindInFiltered(hex, ip, leases);
      FindFirstIs(WithMacAndIp(hex, ip), leases);
      if FindFirst(WithMacAndIp(hex, ip), leases).Some? {
        var i: nat :| FirstAccepted(WithMacAndIp(hex, ip), leases, i)
                      && FindFirst(WithMacAndIp(hex, ip), leases).value == leases[i];
        FirstIsFirstWithBoth(ip, mac, leases, i);
        assert SharesMac(mac, leases[i]) && leases[i].ip == ip;
      } else {
        var i := HeadOfSortedFilter(Recent(l), WithMac(hex), leases);
        BestIsMostRecent(l, mac, leases, i);
        forall k | 0 <= k < |leases| ensures !(SharesMac(mac, leases[k]) && leases[k].ip == ip) {
          assert !WithMacAndIp(hex, ip)(leases[k]);
        }
      }
    }
  }

  /** Position `i` is the first lease with the host's IP. */
  ghost predicate FirstWithIp(ip: string, leases: seq<Lease>, i: nat) {
    i < |leases| && leases[i].ip == ip && forall k :: 0 <= k < i ==> leases[k].ip != ip
  }

  /**
   * The lease chosen is the first one that shares the host's hardware address and has its IP, else the
   * first most recently synced one that shares the address, else the first with the IP; none exactly
   * when no lease has either.
   */
  lemma LeaseChosen(l: Locale, ip: string, mac: Option<string>, leases: seq<Lease>)
    requires ValidLocale(l)
    ensures var r := ResolveLease(l, ip, mac, leases);
            var both := exists k :: 0 <= k < |leases| && SharesMac(mac, leases[k]) && leases[k].ip == ip;
            var shared := exists k :: 0 <= k < |leases| && SharesMac(mac, leases[k]);
            && (both ==> exists i: nat :: FirstWithBoth(ip, mac, leases, i) && r == Some(leases[i]))
            && (shared && !both ==> exists i: nat :: MostRecent(l, mac, leases, i) && r == Some(leases[i]))
            && (!shared && r.Some? ==> exists i: nat :: FirstWithIp(ip, leases, i) && r == Some(leases[i]))
            && (r.None? <==> !shared && forall k :: 0 <= k < |leases| ==> leases[k].ip != ip)
  {
    hide HostMacHex, SharesMac, MacHex, SameMac, Sort, MostRecent, FirstWithBoth, ChooseByMac;
    ChosenByMac(l, ip, mac, leases);
    FindFirstIs(WithIp(ip), leases);
    if Filter(WithMac(HostMacHex(mac)), leases) == [] && FindFirst(WithIp(ip), leases).Some? {
      var i: nat :| FirstAccepted(WithIp(ip), leases, i) && FindFirst(WithIp(ip), leases).value == leases[i];
      assert forall k :: 0 <= k < i ==> !WithIp(ip)(leases[k]);
      assert FirstWithIp(ip, leases, i);
    }
  }

  /** Active Directory leases: the host's IP first, from an index; then its hardware address. */
  function ResolveDirectoryLease(l: Locale, ip: string, mac: Option<string>, byIp: map<string, Lease>,
                                 rows: seq<Lease>): Option<Lease>
    requires ValidLocale(l)
  {
    if ip in byIp then Some(byIp[ip])
    else
      var candidates := Filter(WithMac(HostMacHex(mac)), rows);
      if candidates == [] then None
      else
        SortKeepsSome(l, candidates);
        Some(ChooseByMac(l, ip, candidates))
  }

  /**
   * The directory lease chosen is the indexed one of the host's IP, else the first row that shares its
   * hardware address and has its IP, else the first most recently synced one that shares the address;
   * none exactly when the index lacks the IP and no row shares the address. The index may list any of
   * the rows.
   */
  lemma DirectoryLeaseChosen(l: Locale, ip: string, mac: Option<string>, byIp: map<string, Lease>, rows: seq<Lease>)
    requires ValidLocale(l)
    ensures var r := ResolveDirectoryLease(l, ip, mac, byIp, rows);
            var both := exists k :: 0 <= k < |rows| && SharesMac(mac, rows[k]) && rows[k].ip == ip;
            var shared := exists k :: 0 <= k < |rows| && SharesMac(mac, rows[k]);
            && (ip in byIp ==> r == Some(byIp[ip]))
            && (ip !in byIp && both ==> exists i: nat :: FirstWithBoth(ip, mac, rows, i) && r == Some(rows[i]))
            && (ip !in byIp && shared && !both ==>
                  exists i: nat :: MostRecent(l, mac, rows, i) && r == Some(rows[i]))
            && (r.None? <==> ip !in byIp && !shared)
  {
    hide HostMacHex, SharesMac, MacHex, SameMac, Sort, MostRecent, FirstWithBoth, ChooseByMac;
    ChosenByMac(l, ip, mac, rows);
  }

  // ---------- fingerprints that may name a model ----------

  datatype Fingerprint = Fingerprint(device: string, confidence: real, sources: seq<string>)

  const MIN_CONFIDENCE: real := 0.56
  const PROFILE_SOURCE := "snmp_vendor_profile"

  /** A source that decides the label without ports or TTL alone. */
  predicate Decides(source: string) {
    || source == PROFILE_SOURCE
    || ("rule:" <= source && exists p :: p in Split(source[5..], '+') && p != "ports" && p != "ttl")
  }

  predicate PortsOnly(f: Fingerprint) {
    f.sources != [] && forall s :: s in f.sources ==> !Decides(s)
  }

  /** `modelloDaImpronta`; an empty device is an absent one. */
  function ModelOf(f: Option<Fingerprint>): Option<string> {
    if f.None? || f.value.device == "" || f.value.confidence < MIN_CONFIDENCE || PortsOnly(f.value) then None
    else Some(f.value.device)
  }

  /** A label that says little about the device. */
  predicate WeakLabel(device: string) {
    device == "" || device == "Linux/net-snmp" || device == "Linux generico" || device == "Switch"
  }

  predicate Generic(f: Fingerprint) {
    WeakLabel(f.device) || f.confidence < 0.70
  }

  /** Sources without repetitions, in first-seen order. */
  function Distinct(s: seq<string>): seq<string> {
    if s == [] then []
    else
      var init := Distinct(s[..|s| - 1]);
      if s[|s| - 1] in init then init else init + [s[|s| - 1]]
  }

  function ApplyProfile(f: Option<Fingerprint>, name: string, confidence: real,
                        genericProfile: bool): Option<Fingerprint>
  {
    if f.None? || name == "" || confidence < 0.90 || genericProfile || !Generic(f.value) then f
    else Some(Fingerprint(name, confidence, Distinct(f.value.sources + [PROFILE_SOURCE])))
  }

  lemma {:induction false} DistinctKeeps(s: seq<string>)
    ensures forall x :: x in Distinct(s) <==> x in s
    ensures forall i, j :: 0 <= i < j < |Distinct(s)| ==> Distinct(s)[i] != Distinct(s)[j]
  {
    if s != [] {
      DistinctKeeps(s[..|s| - 1]);
      assert s == s[..|s| - 1] + [s[|s| - 1]];
    }
  }

  /** A part of a rule's source that is not of ports or time-to-live. */
  predicate SomePartDecides(parts: seq<string>) {
    exists i :: 0 <= i < |parts| && parts[i] != "ports" && parts[i] != "ttl"
  }

  lemma DecidesIs(s: string)
    ensures Decides(s) <==> s == "snmp_vendor_profile" || ("rule:" <= s && SomePartDecides(Split(s[5..], '+')))
  {
    hide Split;
    if "rule:" <= s {
      var parts := Split(s[5..], '+');
      if p :| p in parts && p != "ports" && p != "ttl" {
        var i :| 0 <= i < |parts| && parts[i] == p;
        assert SomePartDecides(parts);
      }
      if SomePartDecides(parts) {
        var i :| 0 <= i < |parts| && parts[i] != "ports" && parts[i] != "ttl";
        assert parts[i] in parts;
      }
    }
  }

  /**
   * Which fingerprint names which model: one of enough confidence whose sources, if it lists any, hold
   * one that is not of ports or time-to-live alone.
   */
  lemma ModelOfIff(f: Option<Fingerprint>, model: string)
    ensures ModelOf(f) == Some(model) <==>
              && f.Some? && f.value.device == model && model != "" && f.value.confidence >= 0.56
              && (f.value.sources == []
                  || exists s :: s in f.value.sources
                       && (s == "snmp_vendor_profile"
                           || ("rule:" <= s && SomePartDecides(Split(s[5..], '+')))))
  {
    if f.Some? {
      forall s | s in f.value.sources
        ensures Decides(s) <==> s == "snmp_vendor_profile" || ("rule:" <= s && SomePartDecides(Split(s[5..], '+')))
      {
        DecidesIs(s);
      }
      assert PortsOnly(f.value) <==> f.value.sources != [] && !exists s :: s in f.value.sources && Decides(s);
    }
  }

  /** When a profile replaces a fingerprint, and with what; otherwise it is left as it was. */
  lemma ProfileApplies(f: Option<Fingerprint>, name: string, confidence: real, genericProfile: bool)
    ensures var after := ApplyProfile(f, name, confidence, genericProfile);
            var sources := if after.Some? then after.value.sources else [];
            if f.Some? && name != "" && confidence >= 0.90 && !genericProfile
               && (f.value.confidence < 0.70
                   || f.value.device in ["", "Linux/net-snmp", "Linux generico", "Switch"])
            then && after.Some? && after.value.device == name && after.value.confidence == confidence
                 && (forall x :: x in sources <==> x in f.value.sources || x == "snmp_vendor_profile")
                 && (forall i, j :: 0 <= i < j < |sources| ==> sources[i] != sources[j])
            else after == f
  {
    if f.Some? {
      DistinctKeeps(f.value.sources + [PROFILE_SOURCE]);
    }
  }

  /**
   * A vendor profile that replaces a weak fingerprint always yields its name as the model. Any
   * profile applied afterwards changes nothing, unless the first one's name is itself a weak label:
   * then a usable second one yields its own name.
   */
  lemma ProfileNamesModel(f: Fingerprint, name: string, confidence: real, second: string, secondConfidence: real,
                          secondGeneric: bool)
    requires name != "" && confidence >= 0.90 && Generic(f)
    ensures ModelOf(ApplyProfile(Some(f), name, confidence, false)) == Some(name)
    ensures var once := ApplyProfile(Some(f), name, confidence, false);
            var twice := ApplyProfile(once, second, secondConfidence, secondGeneric);
            var usable := second != "" && secondConfidence >= 0.90 && !secondGeneric;
            && (!WeakLabel(name) || !usable ==> twice == once)
            && (WeakLabel(name) && usable ==> ModelOf(twice) == Some(second))
  {
    ReplacedNamesModel(f, name, confidence);
    var once := ApplyProfile(Some(f), name, confidence, false);
    if WeakLabel(name) && second != "" && secondConfidence >= 0.90 {
      ReplacedNamesModel(once.value, second, secondConfidence);
    }
  }

  lemma ReplacedNamesModel(f: Fingerprint, name: string, confidence: real)
    requires name != "" && confidence >= 0.90 && Generic(f)
    ensures ModelOf(ApplyProfile(Some(f), name, confidence, false)) == Some(name)
  {
    DistinctKeeps(f.sources + [PROFILE_SOURCE]);
    assert PROFILE_SOURCE in f.sources + [PROFILE_SOURCE];
    assert Decides(PROFILE_SOURCE);
  }

  /** A stored fingerprint text: absent, not JSON, or parsed. */
  datatype Stored = Absent | Broken | Parsed(fingerprint: Fingerprint)

  /**
   * `modelloEtichettaDiPorte`: the model is a label written from ports exactly when it is not
   * empty, every text parses, some parsed fingerprint carries it, and all that do are ports only.
   */
  method ModelFromPortsOnly(model: string, texts: seq<Stored>) returns (r: bool)
    ensures r <==>
              && model != ""
              && Broken !in texts
              && (exists i :: 0 <= i < |texts| && texts[i].Parsed? && texts[i].fingerprint.device == model)
              && (forall i :: 0 <= i < |texts| && texts[i].Parsed? && texts[i].fingerprint.device == model ==>
                    PortsOnly(texts[i].fingerprint))
  {
    if model == "" {
      return false;
    }
    var found := false;
    for i := 0 to |texts|
      invariant forall k :: 0 <= k < i ==> !texts[k].Broken?
      invariant forall k :: 0 <= k < i && texts[k].Parsed? && texts[k].fingerprint.device == model ==>
                  PortsOnly(texts[k].fingerprint)
      invariant found <==> exists k :: 0 <= k < i && texts[k].Parsed? && texts[k].fingerprint.device == model
    {
      match texts[i] {
        case Absent =>
        case Broken =>
          assert texts[i] == Broken;
          return false;
        case Parsed(f) =>
          if f.device == model {
            if !PortsOnly(f) {
              return false;
            }
            found := true;
          }
      }
    }
    r := found;
  }
}
