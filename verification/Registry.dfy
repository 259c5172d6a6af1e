/**
 Which client a host belongs to, and the collision check that makes the answer independent
 of the order in which clients and patterns are written down.
 */
module Registry {
  import Sorting
  import opened Text

  datatype Option<+T> = None | Some(value: T)

  datatype Client = Client(id: string, hosts: seq<string>, enabled: bool, intercept: bool, hasHook: bool)

  // -------------------------------------------------------------------------- hosts

  /** Host names and patterns are ASCII. */
  function LowerChar(c: char): (r: char)
    ensures if 'A' <= c <= 'Z' then 'a' <= r <= 'z' && r as int - 'a' as int == c as int - 'A' as int else r == c
  {
    if 'A' <= c <= 'Z' then c - 'A' + 'a' else c
  }

  function Lower(s: string): (r: string)
    ensures |r| == |s| && forall i :: 0 <= i < |s| ==> r[i] == LowerChar(s[i])
  {
    seq(|s|, i requires 0 <= i < |s| => LowerChar(s[i]))
  }

  function Normalize(host: string): string {
    RStrip(Lower(host), c => c == '.')
  }

  predicate IsWildcard(pattern: string) {
    "*." <= pattern
  }

  /** ".example.com" for "*.example.com". */
  function SuffixOf(pattern: string): string
    requires IsWildcard(pattern)
  {
    Lower(pattern[1..])
  }

  predicate EndsWith(s: string, suffix: string) {
    |suffix| <= |s| && s[|s| - |suffix|..] == suffix
  }

  // ------------------------------------------------------------------------- claims

  predicate ClaimsExactly(c: Client, host: string) {
    c.enabled && exists i :: 0 <= i < |c.hosts| && !IsWildcard(c.hosts[i]) && Lower(c.hosts[i]) == host
  }

  predicate Matches(pattern: string, host: string, n: nat) {
    IsWildcard(pattern) && EndsWith(host, SuffixOf(pattern)) && |SuffixOf(pattern)| == n
  }

  /** The client has a wildcard whose suffix, of length `n`, ends the host. */
  predicate ClaimsSuffix(c: Client, host: string, n: nat) {
    c.enabled && exists i :: 0 <= i < |c.hosts| && Matches(c.hosts[i], host, n)
  }

  ghost predicate NoExact(reg: seq<Client>, host: string) {
    forall c :: c in reg ==> !ClaimsExactly(c, host)
  }

  ghost predicate Longest(reg: seq<Client>, host: string, n: nat) {
    forall c, m: nat :: c in reg && ClaimsSuffix(c, host, m) ==> m <= n
  }

  /** The exact claimant, else the claimant of the longest matching suffix, else nobody. */
  ghost predicate IsAnswer(host: string, reg: seq<Client>, r: Option<Client>) {
    match r
    case Some(c) =>
      && c in reg
      && (ClaimsExactly(c, host)
          || (NoExact(reg, host) && exists n: nat :: ClaimsSuffix(c, host, n) && Longest(reg, host, n)))
    case None =>
      NoExact(reg, host) && forall c, m: nat :: c in reg ==> !ClaimsSuffix(c, host, m)
  }

  /** Letter case and trailing dots of a host do not count, and nothing else is dropped. */
  lemma NormalizeExact(host: string)
    ensures exists dots: string :: Lower(host) == Normalize(host) + dots && forall i :: 0 <= i < |dots| ==> dots[i] == '.'
    ensures Normalize(host) != "" ==> Normalize(host)[|Normalize(host)| - 1] != '.'
    ensures forall other :: Lower(other) == Lower(host) ==> Normalize(other) == Normalize(host)
  {
    var low, norm := Lower(host), Normalize(host);
    assert low == norm + low[|norm|..];
  }

  /** A final dot makes no difference. */
  lemma FinalDotIgnored(host: string)
    ensures Normalize(host + ".") == Normalize(host)
  {
    var low := Lower(host);
    LowerAppend(host, ".");
    assert Lower(".") == ".";
    LastDropped(low, ".", c => c == '.');
  }

  lemma LastDropped(s: string, last: string, drop: char -> bool)
    requires |last| == 1 && drop(last[0])
    ensures RStrip(s + last, drop) == RStrip(s, drop)
  {
    TrailingOfPrefix(s, last, drop, |s|);
    var n := Trailing(s, drop, |s|);
    assert Trailing(s + last, drop, |s| + 1) == n;
    assert (s + last)[..n] == s[..n];
  }

  lemma {:induction false} TrailingOfPrefix(s: string, more: string, drop: char -> bool, i: nat)
    requires i <= |s|
    ensures Trailing(s + more, drop, i) == Trailing(s, drop, i)
    decreases i
  {
    if i > 0 { TrailingOfPrefix(s, more, drop, i - 1); }
  }

  /** The host lies below the domain of the wildcard, which is `n` characters long with its dot. */
  ghost predicate LiesBelow(pattern: string, host: string, n: nat) {
    exists x, d :: host == x + "." + d && Lower(pattern) == "*." + d && n == |d| + 1
  }

  lemma LowerAppend(a: string, b: string)
    ensures Lower(a + b) == Lower(a) + Lower(b)
  {
  }

  lemma WildcardSplit(pattern: string)
    requires IsWildcard(pattern)
    ensures Lower(pattern) == "*." + Lower(pattern[2..]) && SuffixOf(pattern) == "." + Lower(pattern[2..])
  {
    LowerPrefix("*.", pattern);
    LowerPrefix(".", pattern[1..]);
    assert pattern[1..][1..] == pattern[2..];
  }

  /** Signs that are not letters stay at the front as they are. */
  lemma LowerPrefix(head: string, s: string)
    requires head <= s && forall i :: 0 <= i < |head| ==> LowerChar(head[i]) == head[i]
    ensures Lower(s) == head + Lower(s[|head|..])
  {
    LowerAppend(head, s[|head|..]);
    assert s == head + s[|head|..];
    assert Lower(head) == head;
  }

  lemma SameTail(head: string, a: string, b: string)
    requires head + a == head + b
    ensures a == b
  {
    assert (head + a)[|head|..] == a && (head + b)[|head|..] == b;
  }

  lemma MatchesThenBelow(pattern: string, host: string, n: nat)
    requires Matches(pattern, host, n)
    ensures LiesBelow(pattern, host, n)
  {
    WildcardSplit(pattern);
    var x, d := host[..|host| - n], Lower(pattern[2..]);
    assert host == x + SuffixOf(pattern) == x + "." + d;
  }

  lemma BelowThenMatches(pattern: string, host: string, x: string, d: string)
    requires host == x + "." + d && Lower(pattern) == "*." + d
    ensures Matches(pattern, host, |d| + 1)
  {
    assert IsWildcard(pattern) by {
      assert Lower(pattern)[..2] == "*.";
      WildcardLower(pattern);
    }
    WildcardSplit(pattern);
    SameTail("*.", d, Lower(pattern[2..]));
    Sorting.Assoc(x, ".", d);
    DomainEnds(x, "." + d);
  }

  lemma DomainEnds(x: string, suffix: string)
    ensures EndsWith(x + suffix, suffix)
  {
  }

  /** A wildcard "*.d" matches exactly the hosts below d, those of the form "x.d". */
  lemma MatchesBelowDot(pattern: string, host: string, n: nat)
    ensures Matches(pattern, host, n) <==> exists x, d :: host == x + "." + d && Lower(pattern) == "*." + d && n == |d| + 1
  {
    if Matches(pattern, host, n) { MatchesThenBelow(pattern, host, n); }
    if x, d :| host == x + "." + d && Lower(pattern) == "*." + d && n == |d| + 1 {
      BelowThenMatches(pattern, host, x, d);
    }
  }

  /** The pattern speaks of the host: it is its name, or a wildcard of a domain it lies below. */
  ghost predicate Covers(pattern: string, host: string) {
    (!IsWildcard(pattern) && Lower(pattern) == host) || exists x, d :: host == x + "." + d && Lower(pattern) == "*." + d
  }

  ghost predicate Covered(reg: seq<Client>, host: string) {
    exists c, p :: c in reg && c.enabled && p in c.hosts && Covers(p, host)
  }

  lemma CoversExact(pattern: string, host: string)
    ensures Covers(pattern, host) <==> (!IsWildcard(pattern) && Lower(pattern) == host) || exists n: nat :: Matches(pattern, host, n)
  {
    if x, d :| host == x + "." + d && Lower(pattern) == "*." + d { BelowThenMatches(pattern, host, x, d); }
    if n: nat :| Matches(pattern, host, n) { MatchesThenBelow(pattern, host, n); }
  }

  lemma CoveredIsClaimed(reg: seq<Client>, host: string)
    requires Covered(reg, host)
    ensures exists c :: c in reg && (ClaimsExactly(c, host) || exists n: nat :: ClaimsSuffix(c, host, n))
  {
    var c, p :| c in reg && c.enabled && p in c.hosts && Covers(p, host);
    CoversExact(p, host);
    var i :| 0 <= i < |c.hosts| && c.hosts[i] == p;
    if n: nat :| Matches(p, host, n) {
      assert ClaimsSuffix(c, host, n);
    }
  }

  lemma ClaimedIsCovered(reg: seq<Client>, host: string, c: Client)
    requires c in reg && (ClaimsExactly(c, host) || exists n: nat :: ClaimsSuffix(c, host, n))
    ensures Covered(reg, host)
  {
    if ClaimsExactly(c, host) {
      var i :| 0 <= i < |c.hosts| && !IsWildcard(c.hosts[i]) && Lower(c.hosts[i]) == host;
      assert c.hosts[i] in c.hosts && Covers(c.hosts[i], host);
    } else {
      var n: nat :| ClaimsSuffix(c, host, n);
      var i :| 0 <= i < |c.hosts| && Matches(c.hosts[i], host, n);
      CoversExact(c.hosts[i], host);
      assert c.hosts[i] in c.hosts;
    }
  }

  /** Nobody answers for a host iff no enabled client has a pattern that covers it. */
  lemma UnclaimedIffUncovered(reg: seq<Client>, host: string, r: Option<Client>)
    requires IsAnswer(host, reg, r)
    ensures r.None? <==> !Covered(reg, host)
  {
    if r.Some? { ClaimedIsCovered(reg, host, r.value); }
    if Covered(reg, host) { CoveredIsClaimed(reg, host); }
  }

  method MatchesExactly(c: Client, host: string) returns (found: bool)
    ensures found == exists i :: 0 <= i < |c.hosts| && !IsWildcard(c.hosts[i]) && Lower(c.hosts[i]) == host
  {
    for i := 0 to |c.hosts|
      invariant forall j :: 0 <= j < i ==> IsWildcard(c.hosts[j]) || Lower(c.hosts[j]) != host
    {
      if !IsWildcard(c.hosts[i]) && Lower(c.hosts[i]) == host {
        return true;
      }
    }
    return false;
  }

  /** Length of the longest suffix among a client's wildcards that ends the host. */
  method BestSuffix(c: Client, host: string) returns (best: Option<nat>)
    requires c.enabled
    ensures best.Some? ==> ClaimsSuffix(c, host, best.value)
    ensures forall m: nat :: ClaimsSuffix(c, host, m) ==> best.Some? && m <= best.value
  {
    best := None;
    for i := 0 to |c.hosts|
      invariant best.Some? ==> ClaimsSuffix(c, host, best.value)
      invariant forall j, m: nat :: 0 <= j < i && Matches(c.hosts[j], host, m) ==> best.Some? && m <= best.value
    {
      var pattern := c.hosts[i];
      if IsWildcard(pattern) {
        var suffix := SuffixOf(pattern);
        if EndsWith(host, suffix) && (best.None? || |suffix| > best.value) {
          assert Matches(c.hosts[i], host, |suffix|);
          best := Some(|suffix|);
        }
      }
    }
  }

  method ResolveClient(targetHost: string, registry: seq<Client>) returns (r: Option<Client>)
    ensures IsAnswer(Normalize(targetHost), registry, r)
    ensures r.None? <==> !Covered(registry, Normalize(targetHost))
  {
    var host := Normalize(targetHost);
    for i := 0 to |registry|
      invariant forall j :: 0 <= j < i ==> !ClaimsExactly(registry[j], host)
    {
      if registry[i].enabled {
        var found := MatchesExactly(registry[i], host);
        if found {
          UnclaimedIffUncovered(registry, host, Some(registry[i]));
          return Some(registry[i]);
        }
      }
    }
    r := None;
    var best := 0;
    for i := 0 to |registry|
      invariant r.Some? ==> r.value in registry && ClaimsSuffix(r.value, host, best)
      invariant forall j, m: nat :: 0 <= j < i && ClaimsSuffix(registry[j], host, m) ==> r.Some? && m <= best
    {
      if registry[i].enabled {
        var n := BestSuffix(registry[i], host);
        if n.Some? && (r.None? || n.value > best) {
          best := n.value;
          r := Some(registry[i]);
        }
      }
    }
    if r.Some? {
      assert Longest(registry, host, best);
    }
    UnclaimedIffUncovered(registry, host, r);
  }

  // --------------------------------------------------------------------- validation

  /** Two clients with different ids never claim the same pattern, letter case aside. */
  ghost predicate NoCollision(reg: seq<Client>) {
    forall c, d, p, q :: c in reg && d in reg && p in c.hosts && q in d.hosts && Lower(p) == Lower(q) ==> c.id == d.id
  }

  predicate Complete(c: Client) {
    c.hosts != [] && (c.intercept ==> c.hasHook)
  }

  ghost predicate Accepted(reg: seq<Client>) {
    NoCollision(reg) && forall c :: c in reg ==> Complete(c)
  }

  datatype Verdict = Valid | EmptyHosts | HostCollision | MissingHook

  /** Every pattern of the clients so far is on record under its client's id. */
  ghost predicate Recorded(reg: seq<Client>, n: nat, current: seq<string>, id: string, exact: map<string, string>, wild: map<string, string>)
    requires n <= |reg|
  {
    && (forall i, p :: 0 <= i < n && p in reg[i].hosts ==>
          (if IsWildcard(p) then Lower(p) in wild && wild[Lower(p)] == reg[i].id
           else Lower(p) in exact && exact[Lower(p)] == reg[i].id))
    && (forall p :: p in current ==>
          (if IsWildcard(p) then Lower(p) in wild && wild[Lower(p)] == id
           else Lower(p) in exact && exact[Lower(p)] == id))
  }

  ghost predicate Sourced(reg: seq<Client>, seen: map<string, string>, wildcard: bool) {
    forall k :: k in seen ==> exists c, p :: c in reg && p in c.hosts && IsWildcard(p) == wildcard && Lower(p) == k && c.id == seen[k]
  }

  lemma WildcardLower(p: string)
    ensures IsWildcard(Lower(p)) <==> IsWildcard(p)
  {
    if |p| >= 2 {
      assert p[..2] == [p[0], p[1]] && Lower(p)[..2] == [Lower(p)[0], Lower(p)[1]];
      assert LowerChar(p[0]) == '*' <==> p[0] == '*';
      assert LowerChar(p[1]) == '.' <==> p[1] == '.';
    }
  }

  lemma CollisionFound(reg: seq<Client>, c: Client, p: string, seen: map<string, string>, wildcard: bool)
    requires Sourced(reg, seen, wildcard) && c in reg && p in c.hosts
    requires Lower(p) in seen && seen[Lower(p)] != c.id
    ensures !NoCollision(reg)
  {
    var d, q :| d in reg && q in d.hosts && IsWildcard(q) == wildcard && Lower(q) == Lower(p) && d.id == seen[Lower(p)];
  }

  lemma SourcedStep(reg: seq<Client>, c: Client, p: string, seen: map<string, string>)
    requires Sourced(reg, seen, IsWildcard(p)) && c in reg && p in c.hosts
    ensures Sourced(reg, seen[Lower(p) := c.id], IsWildcard(p))
  {
    var r := seen[Lower(p) := c.id];
    forall k | k in r ensures exists d, q :: d in reg && q in d.hosts && IsWildcard(q) == IsWildcard(p) && Lower(q) == k && d.id == r[k] {
      if k == Lower(p) {
        assert c in reg && p in c.hosts && IsWildcard(p) == IsWildcard(p) && Lower(p) == k && c.id == r[k];
      } else {
        assert k in seen;
      }
    }
  }

  lemma RecordStep(reg: seq<Client>, n: nat, current: seq<string>, id: string, p: string, exact: map<string, string>, wild: map<string, string>)
    requires n <= |reg| && Recorded(reg, n, current, id, exact, wild)
    requires var bucket := if IsWildcard(p) then wild else exact; Lower(p) in bucket ==> bucket[Lower(p)] == id
    ensures if IsWildcard(p) then Recorded(reg, n, current + [p], id, exact, wild[Lower(p) := id])
            else Recorded(reg, n, current + [p], id, exact[Lower(p) := id], wild)
  {
  }

  /** The patterns of one client against what is on record. */
  method CheckHosts(reg: seq<Client>, i: nat, exact0: map<string, string>, wild0: map<string, string>)
    returns (ok: bool, exact: map<string, string>, wild: map<string, string>)
    requires i < |reg|
    requires Recorded(reg, i, [], "", exact0, wild0) && Sourced(reg, exact0, false) && Sourced(reg, wild0, true)
    ensures !ok ==> !NoCollision(reg)
    ensures ok ==> Recorded(reg, i, reg[i].hosts, reg[i].id, exact, wild) && Sourced(reg, exact, false) && Sourced(reg, wild, true)
  {
    exact, wild := exact0, wild0;
    var c := reg[i];
    for k := 0 to |c.hosts|
      invariant Recorded(reg, i, c.hosts[..k], c.id, exact, wild)
      invariant Sourced(reg, exact, false) && Sourced(reg, wild, true)
    {
      var pattern := c.hosts[k];
      var key := Lower(pattern);
      assert c.hosts[..k + 1] == c.hosts[..k] + [pattern];
      var bucket := if IsWildcard(pattern) then wild else exact;
      if key in bucket && bucket[key] != c.id {
        CollisionFound(reg, c, pattern, bucket, IsWildcard(pattern));
        return false, exact, wild;
      }
      SourcedStep(reg, c, pattern, bucket);
      RecordStep(reg, i, c.hosts[..k], c.id, pattern, exact, wild);
      if IsWildcard(pattern) {
        wild := wild[key := c.id];
      } else {
        exact := exact[key := c.id];
      }
    }
    assert c.hosts[..|c.hosts|] == c.hosts;
    ok := true;
  }

  method Validate(reg: seq<Client>) returns (v: Verdict)
    ensures v == Valid <==> NoCollision(reg) && forall c :: c in reg ==> c.hosts != [] && (c.intercept ==> c.hasHook)
    ensures v == EmptyHosts ==> exists c :: c in reg && c.hosts == []
    ensures v == HostCollision ==> !NoCollision(reg)
    ensures v == MissingHook ==> exists c :: c in reg && c.intercept && !c.hasHook
  {
    var exact: map<string, string>, wild: map<string, string> := map[], map[];
    for i := 0 to |reg|
      invariant Recorded(reg, i, [], "", exact, wild)
      invariant Sourced(reg, exact, false) && Sourced(reg, wild, true)
      invariant forall j :: 0 <= j < i ==> Complete(reg[j])
    {
      var c := reg[i];
      assert c in reg;
      if c.hosts == [] {
        return EmptyHosts;
      }
      var ok;
      ok, exact, wild := CheckHosts(reg, i, exact, wild);
      if !ok {
        return HostCollision;
      }
      if c.intercept && !c.hasHook {
        return MissingHook;
      }
    }
    AllAccepted(reg, exact, wild);
    return Valid;
  }

  lemma AllAccepted(reg: seq<Client>, exact: map<string, string>, wild: map<string, string>)
    requires Recorded(reg, |reg|, [], "", exact, wild) && forall j :: 0 <= j < |reg| ==> Complete(reg[j])
    ensures NoCollision(reg) && forall c :: c in reg ==> c.hosts != [] && (c.intercept ==> c.hasHook)
  {
    RecordedMeansNoCollision(reg, exact, wild);
  }

  lemma RecordedMeansNoCollision(reg: seq<Client>, exact: map<string, string>, wild: map<string, string>)
    requires Recorded(reg, |reg|, [], "", exact, wild)
    ensures NoCollision(reg)
  {
    forall c, d, p, q | c in reg && d in reg && p in c.hosts && q in d.hosts && Lower(p) == Lower(q)
      ensures c.id == d.id
    {
      WildcardLower(p);
      WildcardLower(q);
      var i :| 0 <= i < |reg| && reg[i] == c;
      var j :| 0 <= j < |reg| && reg[j] == d;
    }
  }

  // -------------------------------------------------------------- order independence

  /** What a profile says, with the order of its patterns forgotten. */
  function Content(c: Client): (string, bool, multiset<string>) {
    (c.id, c.enabled, multiset(c.hosts))
  }

  function Contents(reg: seq<Client>): (r: seq<(string, bool, multiset<string>)>)
    ensures |r| == |reg| && forall i :: 0 <= i < |r| ==> r[i] == Content(reg[i])
  {
    seq(|reg|, i requires 0 <= i < |reg| => Content(reg[i]))
  }

  /** Profiles in another order, with their patterns in another order. */
  ghost predicate Rearranged(a: seq<Client>, b: seq<Client>) {
    multiset(Contents(a)) == multiset(Contents(b))
  }

  lemma Counterpart(a: seq<Client>, b: seq<Client>, c: Client) returns (d: Client)
    requires Rearranged(a, b) && c in a
    ensures d in b && Content(d) == Content(c)
  {
    var i :| 0 <= i < |a| && a[i] == c;
    assert Contents(a)[i] in multiset(Contents(a));
    assert Content(c) in multiset(Contents(b));
    var j :| 0 <= j < |b| && Contents(b)[j] == Content(c);
    d := b[j];
  }

  lemma SameHosts(c: Client, d: Client, p: string)
    requires Content(c) == Content(d)
    ensures p in c.hosts <==> p in d.hosts
  {
    assert p in c.hosts <==> p in multiset(c.hosts);
    assert p in d.hosts <==> p in multiset(d.hosts);
  }

  lemma SameClaims(c: Client, d: Client, host: string)
    requires Content(c) == Content(d)
    ensures ClaimsExactly(c, host) ==> ClaimsExactly(d, host)
    ensures forall n: nat :: ClaimsSuffix(c, host, n) ==> ClaimsSuffix(d, host, n)
  {
    if ClaimsExactly(c, host) {
      var i :| 0 <= i < |c.hosts| && !IsWildcard(c.hosts[i]) && Lower(c.hosts[i]) == host;
      SameHosts(c, d, c.hosts[i]);
      var j :| 0 <= j < |d.hosts| && d.hosts[j] == c.hosts[i];
    }
    forall n: nat | ClaimsSuffix(c, host, n) ensures ClaimsSuffix(d, host, n) {
      var i :| 0 <= i < |c.hosts| && Matches(c.hosts[i], host, n);
      SameHosts(c, d, c.hosts[i]);
      var j :| 0 <= j < |d.hosts| && d.hosts[j] == c.hosts[i];
      assert Matches(d.hosts[j], host, n);
    }
  }

  /** Equal-length suffixes of one host are equal, so their claimants are one client. */
  lemma SuffixOwner(reg: seq<Client>, host: string, n: nat, c: Client, d: Client)
    requires NoCollision(reg) && c in reg && d in reg
    requires ClaimsSuffix(c, host, n) && ClaimsSuffix(d, host, n)
    ensures c.id == d.id
  {
    var i :| 0 <= i < |c.hosts| && Matches(c.hosts[i], host, n);
    var j :| 0 <= j < |d.hosts| && Matches(d.hosts[j], host, n);
    EqualSuffixes(c.hosts[i], d.hosts[j], host, n);
    assert c.hosts[i] in c.hosts && d.hosts[j] in d.hosts;
  }

  lemma EqualSuffixes(p: string, q: string, host: string, n: nat)
    requires Matches(p, host, n) && Matches(q, host, n)
    ensures Lower(p) == Lower(q)
  {
    assert SuffixOf(p) == host[|host| - n..] == SuffixOf(q);
    assert p[0] == '*' && q[0] == '*';
    assert Lower(p) == [LowerChar(p[0])] + SuffixOf(p);
    assert Lower(q) == [LowerChar(q[0])] + SuffixOf(q);
  }

  lemma ExactOwner(reg: seq<Client>, host: string, c: Client, d: Client)
    requires NoCollision(reg) && c in reg && d in reg
    requires ClaimsExactly(c, host) && ClaimsExactly(d, host)
    ensures c.id == d.id
  {
    var i :| 0 <= i < |c.hosts| && !IsWildcard(c.hosts[i]) && Lower(c.hosts[i]) == host;
    var j :| 0 <= j < |d.hosts| && !IsWildcard(d.hosts[j]) && Lower(d.hosts[j]) == host;
    assert c.hosts[i] in c.hosts && d.hosts[j] in d.hosts;
  }

  function AnswerId(r: Option<Client>): Option<string> {
    if r.Some? then Some(r.value.id) else None
  }

  /** The longest claims on a host are equally long in both registries. */
  lemma SameLongest(a: seq<Client>, b: seq<Client>, host: string, c: Client, n: nat, d: Client, m: nat)
    requires Rearranged(a, b) && c in a && d in b
    requires ClaimsSuffix(c, host, n) && Longest(a, host, n)
    requires ClaimsSuffix(d, host, m) && Longest(b, host, m)
    ensures n == m
  {
    var c' := Counterpart(a, b, c);
    var d' := Counterpart(b, a, d);
    SameClaims(c, c', host);
    SameClaims(d, d', host);
    assert ClaimsSuffix(c', host, n) && ClaimsSuffix(d', host, m);
  }

  lemma SomeAnswerFound(a: seq<Client>, b: seq<Client>, host: string, ra: Option<Client>, rb: Option<Client>)
    requires NoCollision(a) && Rearranged(a, b)
    requires IsAnswer(host, a, ra) && IsAnswer(host, b, rb) && ra.Some?
    ensures rb.Some? && rb.value.id == ra.value.id
  {
    var c := ra.value;
    var c' := Counterpart(a, b, c);
    SameClaims(c, c', host);
    if rb.Some? { SameAnswer(a, b, host, c, rb.value); }
  }

  lemma SameAnswer(a: seq<Client>, b: seq<Client>, host: string, c: Client, d: Client)
    requires NoCollision(a) && Rearranged(a, b)
    requires IsAnswer(host, a, Some(c)) && IsAnswer(host, b, Some(d))
    ensures c.id == d.id
  {
    var c' := Counterpart(a, b, c);
    var d' := Counterpart(b, a, d);
    SameClaims(c, c', host);
    SameClaims(d, d', host);
    if ClaimsExactly(c, host) {
      ExactOwner(a, host, c, d');
    } else {
      assert !ClaimsExactly(d', host) && !ClaimsExactly(d, host);
      var n: nat :| ClaimsSuffix(c, host, n) && Longest(a, host, n);
      var m: nat :| ClaimsSuffix(d, host, m) && Longest(b, host, m);
      SameLongest(a, b, host, c, n, d, m);
      SuffixOwner(a, host, n, c, d');
    }
  }

  lemma RearrangedAccepted(a: seq<Client>, b: seq<Client>)
    requires NoCollision(a) && Rearranged(a, b)
    ensures NoCollision(b)
  {
    forall c, d, p, q | c in b && d in b && p in c.hosts && q in d.hosts && Lower(p) == Lower(q)
      ensures c.id == d.id
    {
      var c' := Counterpart(b, a, c);
      var d' := Counterpart(b, a, d);
      SameHosts(c, c', p);
      SameHosts(d, d', q);
    }
  }

  /**
   For a registry the validation accepts, any two resolutions of a host agree on the client
   id, whatever the order of the profiles and of the patterns inside them.
   */
  lemma ResolutionOrderIndependent(a: seq<Client>, b: seq<Client>, host: string, ra: Option<Client>, rb: Option<Client>)
    requires Accepted(a) && Rearranged(a, b)
    requires IsAnswer(host, a, ra) && IsAnswer(host, b, rb)
    ensures AnswerId(ra) == AnswerId(rb)
  {
    RearrangedAccepted(a, b);
    if ra.Some? {
      SomeAnswerFound(a, b, host, ra, rb);
    } else if rb.Some? {
      SomeAnswerFound(b, a, host, rb, ra);
    }
  }

  predicate DistinctIds(reg: seq<Client>) {
    forall i, j :: 0 <= i < j < |reg| ==> reg[i].id != reg[j].id
  }

  /** With distinct ids the answer is one and the same profile. */
  lemma AnswerUnique(reg: seq<Client>, host: string, r: Option<Client>, s: Option<Client>)
    requires Accepted(reg) && DistinctIds(reg)
    requires IsAnswer(host, reg, r) && IsAnswer(host, reg, s)
    ensures r == s
  {
    ResolutionOrderIndependent(reg, reg, host, r, s);
    if r.Some? {
      var i :| 0 <= i < |reg| && reg[i] == r.value;
      var j :| 0 <= j < |reg| && reg[j] == s.value;
    }
  }
}
