/** Routing: custom rules by scan, built-in domain rules through an index, then GeoIP, then the
    default. The index is built from built-in and custom rules together, once. */
module RouteEngine {
  import opened Wrappers

  datatype Action = Direct | Proxy

  datatype Rule = Rule(id: string, kind: string, pattern: string, action: Action,
                       priority: int, enabled: bool, builtin: bool)

  datatype Result = Result(action: Action, id: string, via: string)

  /** What the GeoIP database, if there is one, says of the address in question. */
  datatype Geo = Geo(available: bool, china: bool)

  const NO_RESULT := Result(Proxy, "", "")

  predicate EndsWith(host: string, suffix: string) {
    |host| >= |suffix| && host[|host| - |suffix|..] == suffix
  }

  predicate IsExact(r: Rule) { r.enabled && r.kind == "domain_exact" }

  predicate IsSuffix(r: Rule) { r.enabled && r.kind == "domain_suffix" }

  /** An address rule matches every request whose address is known. */
  predicate Matches(r: Rule, host: string, ip: string) {
    || (IsExact(r) && host == r.pattern)
    || (IsSuffix(r) && EndsWith(host, r.pattern))
    || (r.enabled && r.kind == "ip_cidr" && ip != "")
  }

  // ----- the index-free reading ------------------------------------------------------

  function FirstMatch(rules: seq<Rule>, host: string, ip: string): Option<Rule> {
    if rules == [] then None
    else if Matches(rules[0], host, ip) then Some(rules[0])
    else FirstMatch(rules[1..], host, ip)
  }

  function LastExact(rules: seq<Rule>, host: string): Option<Rule> {
    if rules == [] then None
    else
      var last := rules[|rules| - 1];
      if IsExact(last) && last.pattern == host then Some(last) else LastExact(rules[..|rules| - 1], host)
  }

  function FirstSuffix(rules: seq<Rule>, host: string): Option<Rule> {
    if rules == [] then None
    else if IsSuffix(rules[0]) && EndsWith(host, rules[0].pattern) then Some(rules[0])
    else FirstSuffix(rules[1..], host)
  }

  function Located(fallback: Action, geo: Geo, ip: string): Result {
    if ip != "" && geo.available then
      if geo.china then Result(Direct, "geoip_cn", "geoip") else Result(Proxy, "geoip_international", "geoip")
    else Result(fallback, "default", "default")
  }

  /** The decision as the rules read: first matching custom rule, last built-in exact rule,
      first built-in suffix rule, location, default. */
  function Cascade(builtin: seq<Rule>, custom: seq<Rule>, fallback: Action, geo: Geo,
                   host: string, ip: string): Result
  {
    match FirstMatch(custom, host, ip)
    case Some(r) => Result(r.action, r.id, "custom_" + r.kind)
    case None =>
      match LastExact(builtin, host)
      case Some(r) => Result(r.action, "builtin_exact_" + host, "builtin_domain_exact")
      case None =>
        match FirstSuffix(builtin, host)
        case Some(r) => Result(r.action, "builtin_suffix_" + r.pattern, "builtin_domain_suffix")
        case None => Located(fallback, geo, ip)
  }

  // ----- what the rules say ----------------------------------------------------------

  ghost predicate EndsIn(host: string, suffix: string) { exists before: string :: host == before + suffix }

  lemma {:induction false} EndsWithIs(host: string, suffix: string)
    ensures EndsWith(host, suffix) <==> EndsIn(host, suffix)
  {
    if EndsWith(host, suffix) { assert host == host[..|host| - |suffix|] + suffix; }
  }

  /** A rule that is not disabled and is for this host. */
  predicate Names(r: Rule, host: string) { r.enabled && r.kind == "domain_exact" && r.pattern == host }

  /** A rule that is not disabled and is for a domain that this host is in. */
  ghost predicate Covers(r: Rule, host: string) {
    r.enabled && r.kind == "domain_suffix" && EndsIn(host, r.pattern)
  }

  ghost predicate Applies(r: Rule, host: string, ip: string) {
    Names(r, host) || Covers(r, host) || (r.enabled && r.kind == "ip_cidr" && ip != "")
  }

  ghost predicate NoneApplies(rules: seq<Rule>, host: string, ip: string) {
    forall i :: 0 <= i < |rules| ==> !Applies(rules[i], host, ip)
  }

  ghost predicate NoneNames(rules: seq<Rule>, host: string) {
    forall i :: 0 <= i < |rules| ==> !Names(rules[i], host)
  }

  ghost predicate NoneCovers(rules: seq<Rule>, host: string) {
    forall i :: 0 <= i < |rules| ==> !Covers(rules[i], host)
  }

  // the place of the first rule that applies, of the last for the host, and of the first for a
  // domain it is in

  ghost predicate FirstApplies(rules: seq<Rule>, host: string, ip: string, i: nat) {
    i < |rules| && Applies(rules[i], host, ip) && NoneApplies(rules[..i], host, ip)
  }

  ghost predicate LastNames(rules: seq<Rule>, host: string, i: nat) {
    i < |rules| && Names(rules[i], host) && NoneNames(rules[i + 1..], host)
  }

  ghost predicate FirstCovers(rules: seq<Rule>, host: string, i: nat) {
    i < |rules| && Covers(rules[i], host) && NoneCovers(rules[..i], host)
  }

  lemma {:induction false} FirstMatchIs(rules: seq<Rule>, host: string, ip: string)
    ensures NoneApplies(rules, host, ip) ==> FirstMatch(rules, host, ip).None?
    ensures forall i: nat :: FirstApplies(rules, host, ip, i) ==> FirstMatch(rules, host, ip) == Some(rules[i])
  {
    if rules != [] {
      EndsWithIs(host, rules[0].pattern);
      FirstMatchIs(rules[1..], host, ip);
      forall i: nat | i > 0 && FirstApplies(rules, host, ip, i)
        ensures FirstApplies(rules[1..], host, ip, i - 1) && !Applies(rules[0], host, ip)
      {
        assert rules[..i][0] == rules[0];
        assert rules[1..][..i - 1] == rules[..i][1..];
      }
    }
  }

  lemma {:induction false} LastExactIs(rules: seq<Rule>, host: string)
    ensures NoneNames(rules, host) ==> LastExact(rules, host).None?
    ensures forall i: nat :: LastNames(rules, host, i) ==> LastExact(rules, host) == Some(rules[i])
  {
    if rules != [] {
      var front, n := rules[..|rules| - 1], |rules| - 1;
      LastExactIs(front, host);
      forall i: nat | i < n && LastNames(rules, host, i)
        ensures LastNames(front, host, i) && !Names(rules[n], host)
      {
        assert rules[i + 1..][n - i - 1] == rules[n];
        assert front[i + 1..] == rules[i + 1..][..n - i - 1];
      }
    }
  }

  lemma {:induction false} FirstSuffixIs(rules: seq<Rule>, host: string)
    ensures NoneCovers(rules, host) ==> FirstSuffix(rules, host).None?
    ensures forall i: nat :: FirstCovers(rules, host, i) ==> FirstSuffix(rules, host) == Some(rules[i])
  {
    if rules != [] {
      EndsWithIs(host, rules[0].pattern);
      FirstSuffixIs(rules[1..], host);
      forall i: nat | i > 0 && FirstCovers(rules, host, i)
        ensures FirstCovers(rules[1..], host, i - 1) && !Covers(rules[0], host)
      {
        assert rules[..i][0] == rules[0];
        assert rules[1..][..i - 1] == rules[..i][1..];
      }
    }
  }

  /** The decision by the places of the rules: the first custom rule that applies decides; if none
      does, the last built-in rule for the host; if there is none, the first built-in rule for a
      domain it is in; and otherwise the country, if it can be looked up, or the default. */
  lemma {:induction false} DecisionIs(builtin: seq<Rule>, custom: seq<Rule>, fallback: Action, geo: Geo,
                                      host: string, ip: string, i: nat)
    ensures
      var r := Cascade(builtin, custom, fallback, geo, host, ip);
      && (FirstApplies(custom, host, ip, i)
          ==> r == Result(custom[i].action, custom[i].id, "custom_" + custom[i].kind))
      && (NoneApplies(custom, host, ip) ==>
            && (LastNames(builtin, host, i)
                ==> r == Result(builtin[i].action, "builtin_exact_" + host, "builtin_domain_exact"))
            && (NoneNames(builtin, host) ==>
                  && (FirstCovers(builtin, host, i)
                      ==> r == Result(builtin[i].action, "builtin_suffix_" + builtin[i].pattern,
                                      "builtin_domain_suffix"))
                  && (NoneCovers(builtin, host) ==>
                        && (ip == "" || !geo.available ==> r == Result(fallback, "default", "default"))
                        && (ip != "" && geo.available ==> (r.action == Direct <==> geo.china) && r.via == "geoip"))))
  {
    FirstMatchIs(custom, host, ip);
    LastExactIs(builtin, host);
    FirstSuffixIs(builtin, host);
  }

  // ----- the index -------------------------------------------------------------------

  function ExactIndex(rules: seq<Rule>): map<string, Action> {
    if rules == [] then map[]
    else
      var rest, last := ExactIndex(rules[..|rules| - 1]), rules[|rules| - 1];
      if IsExact(last) then rest[last.pattern := last.action] else rest
  }

  function SuffixIndex(rules: seq<Rule>): seq<(string, Action)> {
    if rules == [] then []
    else
      var rest, last := SuffixIndex(rules[..|rules| - 1]), rules[|rules| - 1];
      if IsSuffix(last) then rest + [(last.pattern, last.action)] else rest
  }

  function FirstEntry(list: seq<(string, Action)>, host: string): Option<(string, Action)> {
    if list == [] then None
    else if EndsWith(host, list[0].0) then Some(list[0])
    else FirstEntry(list[1..], host)
  }

  /** The decision as the engine takes it, from its custom rules and its index. */
  function Indexed(custom: seq<Rule>, exact: map<string, Action>, suffixes: seq<(string, Action)>,
                   fallback: Action, geo: Geo, host: string, ip: string): Result
  {
    var m := FirstMatch(custom, host, ip);
    if m.Some? && m.value.id != "" then Result(m.value.action, m.value.id, "custom_" + m.value.kind)
    else if host in exact then Result(exact[host], "builtin_exact_" + host, "builtin_domain_exact")
    else
      match FirstEntry(suffixes, host)
      case Some(e) => Result(e.1, "builtin_suffix_" + e.0, "builtin_domain_suffix")
      case None => Located(fallback, geo, ip)
  }

  // ----- the index refines the scan --------------------------------------------------

  lemma {:induction false} NoMatchIn(rules: seq<Rule>, host: string, ip: string)
    ensures FirstMatch(rules, host, ip).None? <==> forall r :: r in rules ==> !Matches(r, host, ip)
    ensures FirstMatch(rules, host, ip).Some? ==>
      FirstMatch(rules, host, ip).value in rules && Matches(FirstMatch(rules, host, ip).value, host, ip)
  {
    if rules != [] {
      NoMatchIn(rules[1..], host, ip);
      assert rules == [rules[0]] + rules[1..];
    }
  }

  lemma {:induction false} ExactAlone(builtin: seq<Rule>, host: string)
    ensures
      var index, r := ExactIndex(builtin), LastExact(builtin, host);
      && (host in index <==> r.Some?)
      && (host in index ==> index[host] == r.value.action)
  {
    if builtin != [] { ExactAlone(builtin[..|builtin| - 1], host); }
  }

  /** Custom rules that match nothing leave the entry of a host as the built-in rules made it. */
  lemma {:induction false} ExactLookup(builtin: seq<Rule>, custom: seq<Rule>, host: string)
    requires forall r :: r in custom ==> !(IsExact(r) && host == r.pattern)
    ensures
      var index, r := ExactIndex(builtin + custom), LastExact(builtin, host);
      && (host in index <==> r.Some?)
      && (host in index ==> index[host] == r.value.action)
  {
    if custom == [] {
      assert builtin + custom == builtin;
      ExactAlone(builtin, host);
    } else {
      ExactLookup(builtin, custom[..|custom| - 1], host);
      assert (builtin + custom)[..|builtin + custom| - 1] == builtin + custom[..|custom| - 1];
    }
  }

  lemma {:induction false} SuffixPush(rules: seq<Rule>, tail: seq<Rule>)
    ensures SuffixIndex(rules + tail) == SuffixIndex(rules) + SuffixIndex(tail)
  {
    if tail == [] {
      assert rules + tail == rules;
    } else {
      SuffixPush(rules, tail[..|tail| - 1]);
      assert (rules + tail)[..|rules + tail| - 1] == rules + tail[..|tail| - 1];
    }
  }

  lemma {:induction false} SuffixLookup(builtin: seq<Rule>, custom: seq<Rule>, host: string)
    requires forall r :: r in custom ==> !(IsSuffix(r) && EndsWith(host, r.pattern))
    ensures
      var e, r := FirstEntry(SuffixIndex(builtin + custom), host), FirstSuffix(builtin, host);
      && (e.Some? <==> r.Some?)
      && (e.Some? ==> e.value == (r.value.pattern, r.value.action))
  {
    if builtin == [] {
      assert builtin + custom == custom;
      NoEntry(custom, host);
    } else {
      SuffixLookup(builtin[1..], custom, host);
      SuffixPush([builtin[0]], builtin[1..] + custom);
      assert [builtin[0]] + (builtin[1..] + custom) == builtin + custom;
      assert [builtin[0]][..0] == [];
      var head, rest := SuffixIndex([builtin[0]]), SuffixIndex(builtin[1..] + custom);
      if IsSuffix(builtin[0]) {
        assert (head + rest)[1..] == rest;
      } else {
        assert head + rest == rest;
      }
    }
  }

  lemma {:induction false} NoEntry(rules: seq<Rule>, host: string)
    requires forall r :: r in rules ==> !(IsSuffix(r) && EndsWith(host, r.pattern))
    ensures FirstEntry(SuffixIndex(rules), host).None?
  {
    forall e | e in SuffixIndex(rules) ensures !EndsWith(host, e.0) {
      EntryFromRule(rules, e);
    }
    NoneEnds(SuffixIndex(rules), host);
  }

  lemma {:induction false} EntryFromRule(rules: seq<Rule>, e: (string, Action))
    requires e in SuffixIndex(rules)
    ensures exists r :: r in rules && IsSuffix(r) && r.pattern == e.0
  {
    var front, last := rules[..|rules| - 1], rules[|rules| - 1];
    assert rules == front + [last];
    if e in SuffixIndex(front) {
      EntryFromRule(front, e);
    } else {
      assert last in rules;
    }
  }

  lemma {:induction false} NoneEnds(list: seq<(string, Action)>, host: string)
    requires forall e :: e in list ==> !EndsWith(host, e.0)
    ensures FirstEntry(list, host).None?
  {
    if list != [] { NoneEnds(list[1..], host); }
  }

  /** With an index built from the built-in rules and some of the present custom rules, the
      engine decides as the rules read exactly when the first custom rule that matches, if
      any does, has an identifier. */
  lemma {:induction false} IndexRefinesScan(builtin: seq<Rule>, indexed: seq<Rule>, custom: seq<Rule>,
                         fallback: Action, geo: Geo, host: string, ip: string)
    requires forall r :: r in indexed ==> r in custom
    ensures
      var m := FirstMatch(custom, host, ip);
      Indexed(custom, ExactIndex(builtin + indexed), SuffixIndex(builtin + indexed), fallback, geo, host, ip)
      == Cascade(builtin, custom, fallback, geo, host, ip)
      <==> (m.Some? ==> m.value.id != "")
  {
    NoMatchIn(custom, host, ip);
    if FirstMatch(custom, host, ip).None? {
      ExactLookup(builtin, indexed, host);
      SuffixLookup(builtin, indexed, host);
    } else {
      NeverAnonymous(custom, ExactIndex(builtin + indexed), SuffixIndex(builtin + indexed), fallback, geo, host, ip);
    }
  }

  /** Every decision of the engine names what it follows. */
  lemma NeverAnonymous(custom: seq<Rule>, exact: map<string, Action>, suffixes: seq<(string, Action)>,
                       fallback: Action, geo: Geo, host: string, ip: string)
    ensures Indexed(custom, exact, suffixes, fallback, geo, host, ip).id != ""
  {
  }

  /** With a known address, nothing behind the first enabled address rule is consulted: no later
      custom rule, no index, no location, no default. */
  lemma {:induction false} NothingBehindCidr(before: seq<Rule>, r: Rule, behind: seq<Rule>, host: string, ip: string)
    requires r.enabled && r.kind == "ip_cidr" && ip != ""
    ensures FirstMatch(before + [r], host, ip).Some?
    ensures FirstMatch(before + [r] + behind, host, ip) == FirstMatch(before + [r], host, ip)
  {
    if before == [] {
      assert [] + [r] + behind == [r] + behind;
    } else {
      NothingBehindCidr(before[1..], r, behind, host, ip);
      assert (before + [r])[1..] == before[1..] + [r];
      assert (before + [r] + behind)[1..] == before[1..] + [r] + behind;
    }
  }

  lemma {:induction false} CidrDecides(before: seq<Rule>, r: Rule, host: string, ip: string,
                                       behind: seq<Rule>, exact: map<string, Action>, suffixes: seq<(string, Action)>,
                                       fallback: Action, geo: Geo)
    requires r.enabled && r.kind == "ip_cidr" && ip != ""
    ensures
      var m := FirstMatch(before + [r], host, ip);
      m.Some? && (m.value.id != "" ==>
        Indexed(before + [r] + behind, exact, suffixes, fallback, geo, host, ip)
        == Result(m.value.action, m.value.id, "custom_" + m.value.kind))
  {
    NothingBehindCidr(before, r, behind, host, ip);
  }

  predicate NoRule(builtin: seq<Rule>, custom: seq<Rule>, host: string, ip: string) {
    FirstMatch(custom, host, ip).None? && LastExact(builtin, host).None? && FirstSuffix(builtin, host).None?
  }

  /** The country decides exactly the requests that no rule matches and whose address is known
      and can be looked up, and the default exactly the others that no rule matches. */
  lemma LocationDecides(builtin: seq<Rule>, custom: seq<Rule>, fallback: Action, geo: Geo,
                         host: string, ip: string)
    ensures
      var located := ip != "" && geo.available;
      var r := Cascade(builtin, custom, fallback, geo, host, ip);
      && (r != Cascade(builtin, custom, fallback, geo.(china := !geo.china), host, ip)
          <==> NoRule(builtin, custom, host, ip) && located)
      && (r != Cascade(builtin, custom, if fallback == Direct then Proxy else Direct, geo, host, ip)
          <==> NoRule(builtin, custom, host, ip) && !located)
      && (NoRule(builtin, custom, host, ip) && located ==> (r.action == Direct <==> geo.china))
  {
  }

  // ----- priorities ------------------------------------------------------------------

  predicate Prioritized(rules: seq<Rule>) {
    forall i, j :: 0 <= i < j < |rules| ==> rules[i].priority >= rules[j].priority
  }

  /** In a list sorted by falling priority, the first match has the highest priority of all
      that match. */
  lemma {:induction false} FirstIsHighest(rules: seq<Rule>, host: string, ip: string, other: Rule)
    requires Prioritized(rules) && other in rules && Matches(other, host, ip)
    ensures FirstMatch(rules, host, ip).Some?
    ensures FirstMatch(rules, host, ip).value.priority >= other.priority
  {
    if !Matches(rules[0], host, ip) {
      assert rules == [rules[0]] + rules[1..];
      FirstIsHighest(rules[1..], host, ip, other);
    }
  }

  // ----- the engine ------------------------------------------------------------------

  class Engine {
    var builtin: seq<Rule>
    var custom: seq<Rule>
    var fallback: Action
    var exact: map<string, Action>
    var suffixes: seq<(string, Action)>
    // the custom rules the index was built from
    ghost var indexed: seq<Rule>

    /** The index is that of the built-in rules and of custom rules that are still there. */
    ghost predicate Valid()
      reads this
    {
      && exact == ExactIndex(builtin + indexed) && suffixes == SuffixIndex(builtin + indexed)
      && forall r :: r in indexed ==> r in custom
    }

    constructor (builtin: seq<Rule>, custom: seq<Rule>, defaultAction: string)
      ensures Valid() && this.builtin == builtin && this.custom == custom
      ensures fallback == if defaultAction == "direct" then Direct else Proxy
    {
      this.builtin, this.custom := builtin, custom;
      fallback := if defaultAction == "direct" then Direct else Proxy;
      exact, suffixes, indexed := map[], [], [];
      new;
      BuildDomainIndex();
    }

    method BuildDomainIndex()
      modifies this
      ensures Valid() && indexed == custom
      ensures builtin == old(builtin) && custom == old(custom) && fallback == old(fallback)
    {
      exact := map[];
      suffixes := [];
      indexed := custom;
      AddAllToIndex(builtin, []);
      assert [] + builtin == builtin;
      AddAllToIndex(custom, builtin);
    }

    method AddAllToIndex(rules: seq<Rule>, ghost before: seq<Rule>)
      requires exact == ExactIndex(before) && suffixes == SuffixIndex(before)
      modifies this`exact, this`suffixes
      ensures exact == ExactIndex(before + rules) && suffixes == SuffixIndex(before + rules)
    {
      assert before + rules[..0] == before;
      for i := 0 to |rules|
        invariant exact == ExactIndex(before + rules[..i]) && suffixes == SuffixIndex(before + rules[..i])
      {
        ghost var seen := before + rules[..i];
        assert before + rules[..i + 1] == seen + [rules[i]];
        assert (seen + [rules[i]])[..|seen|] == seen;
        AddToIndex(rules[i]);
      }
      assert rules[..|rules|] == rules;
    }

    method AddToIndex(rule: Rule)
      modifies this`exact, this`suffixes
      ensures exact == if IsExact(rule) then old(exact)[rule.pattern := rule.action] else old(exact)
      ensures suffixes == if IsSuffix(rule) then old(suffixes) + [(rule.pattern, rule.action)] else old(suffixes)
    {
      if !rule.enabled { return; }
      if rule.kind == "domain_exact" {
        exact := exact[rule.pattern := rule.action];
      } else if rule.kind == "domain_suffix" {
        suffixes := suffixes + [(rule.pattern, rule.action)];
      }
    }

    /** std::sort leaves the order of equal priorities open, and so does this contract. */
    method AddCustomRule(rule: Rule)
      requires Valid()
      modifies this`custom
      ensures Valid() && Prioritized(custom)
      ensures multiset(custom) == multiset(old(custom)) + multiset{rule}
    {
      var unsorted := custom + [rule];
      var sorted: seq<Rule> := [];
      for i := 0 to |unsorted|
        invariant Prioritized(sorted) && multiset(sorted) == multiset(unsorted[..i])
      {
        assert unsorted[..i + 1] == unsorted[..i] + [unsorted[i]];
        InsertIsPermutation(sorted, unsorted[i]);
        InsertPrioritized(sorted, unsorted[i]);
        sorted := Insert(sorted, unsorted[i]);
      }
      assert unsorted[..|unsorted|] == unsorted;
      custom := sorted;
      forall r | r in indexed ensures r in custom {
        assert r in old(custom) && r in multiset(custom);
      }
    }

    method MatchCustomRules(host: string, ip: string) returns (r: Result)
      ensures
        var m := FirstMatch(custom, host, ip);
        r == if m.None? then NO_RESULT else Result(m.value.action, m.value.id, "custom_" + m.value.kind)
    {
      KindNames();
      for i := 0 to |custom|
        invariant FirstMatch(custom, host, ip) == FirstMatch(custom[i..], host, ip)
      {
        var rule := custom[i];
        assert custom[i..][0] == rule && custom[i..][1..] == custom[i + 1..];
        if !rule.enabled { continue; }
        if rule.kind == "domain_exact" && host == rule.pattern {
          return Result(rule.action, rule.id, "custom_domain_exact");
        }
        if rule.kind == "domain_suffix" {
          if |host| >= |rule.pattern| && host[|host| - |rule.pattern|..] == rule.pattern {
            return Result(rule.action, rule.id, "custom_domain_suffix");
          }
        }
        if rule.kind == "ip_cidr" && ip != "" {
          return Result(rule.action, rule.id, "custom_ip_cidr");
        }
      }
      return NO_RESULT;
    }

    method MatchDomainRules(host: string) returns (r: Result)
      ensures
        var e := FirstEntry(suffixes, host);
        r == if host in exact then Result(exact[host], "builtin_exact_" + host, "builtin_domain_exact")
             else if e.Some? then Result(e.value.1, "builtin_suffix_" + e.value.0, "builtin_domain_suffix")
             else NO_RESULT
    {
      if host in exact {
        return Result(exact[host], "builtin_exact_" + host, "builtin_domain_exact");
      }
      for i := 0 to |suffixes|
        invariant FirstEntry(suffixes, host) == FirstEntry(suffixes[i..], host)
      {
        var (suffix, action) := suffixes[i];
        assert suffixes[i..][0] == suffixes[i] && suffixes[i..][1..] == suffixes[i + 1..];
        if |host| >= |suffix| && host[|host| - |suffix|..] == suffix {
          return Result(action, "builtin_suffix_" + suffix, "builtin_domain_suffix");
        }
      }
      return NO_RESULT;
    }

    /** As the rules read, whenever the custom rule that matches first has an identifier. */
    method Decide(host: string, ip: string, geo: Geo) returns (r: Result)
      requires Valid()
      ensures r == Indexed(custom, exact, suffixes, fallback, geo, host, ip)
      ensures
        var m := FirstMatch(custom, host, ip);
        r == Cascade(builtin, custom, fallback, geo, host, ip) <==> (m.Some? ==> m.value.id != "")
    {
      IndexRefinesScan(builtin, indexed, custom, fallback, geo, host, ip);
      r := MatchCustomRules(host, ip);
      if r.action != Proxy || r.id != "" {
        if r.id != "" { return r; }
      }
      r := MatchDomainRules(host);
      if r.id != "" { return r; }
      if ip != "" {
        r := MatchGeoip(geo);
        if r.id != "" { return r; }
      }
      return Result(fallback, "default", "default");
    }

    method MatchGeoip(geo: Geo) returns (r: Result)
      ensures r == if !geo.available then NO_RESULT
                   else if geo.china then Result(Direct, "geoip_cn", "geoip")
                   else Result(Proxy, "geoip_international", "geoip")
    {
      if !geo.available { return NO_RESULT; }
      if geo.china { return Result(Direct, "geoip_cn", "geoip"); }
      return Result(Proxy, "geoip_international", "geoip");
    }
  }

  function Insert(rules: seq<Rule>, r: Rule): (s: seq<Rule>) {
    if rules == [] || rules[0].priority < r.priority then [r] + rules
    else [rules[0]] + Insert(rules[1..], r)
  }

  lemma {:induction false} InsertIsPermutation(rules: seq<Rule>, r: Rule)
    ensures multiset(Insert(rules, r)) == multiset(rules) + multiset{r}
  {
    if rules != [] && rules[0].priority >= r.priority {
      InsertIsPermutation(rules[1..], r);
      assert rules == [rules[0]] + rules[1..];
    }
  }

  lemma {:induction false} InsertPrioritized(rules: seq<Rule>, r: Rule)
    requires Prioritized(rules)
    ensures Prioritized(Insert(rules, r))
    ensures forall i :: 0 <= i < |Insert(rules, r)| ==> Insert(rules, r)[i] == r || Insert(rules, r)[i] in rules
  {
    if rules != [] && rules[0].priority >= r.priority {
      InsertPrioritized(rules[1..], r);
    }
  }

  lemma KindNames()
    ensures "custom_" + "domain_exact" == "custom_domain_exact"
    ensures "custom_" + "domain_suffix" == "custom_domain_suffix"
    ensures "custom_" + "ip_cidr" == "custom_ip_cidr"
  {
  }
}
