/**
 The packet-filter rules the service installs and removes. The kernel's rule
 tables are a map from (table, chain) to the chain's rules in order; the three
 primitive commands behave as `iptables -I`, `-A` and `-D` do: insert at a
 1-based position, append, delete the first rule with the given text. Every
 command fails when the `iptables` binary cannot be found.
 */
module Iptables {
  import opened Common

  /** The rule that diverts traffic to the engine's queue 200. */
  const RULE: string := "-j NFQUEUE --queue-num 200 --queue-bypass"

  const MANGLE: string := "mangle"
  const FILTER: string := "filter"
  const POSTROUTING: string := "POSTROUTING"
  const PREROUTING: string := "PREROUTING"
  const FORWARD: string := "FORWARD"

  type ChainId = (string, string)

  datatype Netfilter = Netfilter(available: bool, chains: map<ChainId, seq<string>>)

  /** The state the commands left behind, and whether the whole sequence succeeded. */
  datatype NetStep = NetStep(net: Netfilter, result: Result<()>)

  // ------------------------------------------------------------ first occurrence

  /** `s` without its first `x`. */
  function RemoveFirst<T(==)>(s: seq<T>, x: T): (r: seq<T>)
    requires x in s
    ensures |r| == |s| - 1
  {
    if s[0] == x then s[1..] else [s[0]] + RemoveFirst(s[1..], x)
  }

  lemma {:induction false} RemoveFirstMultiset<T>(s: seq<T>, x: T)
    requires x in s
    ensures multiset(RemoveFirst(s, x)) == multiset(s) - multiset{x}
  {
    if s[0] == x {
      assert s == [x] + s[1..];
    } else {
      assert x in s[1..];
      RemoveFirstMultiset(s[1..], x);
      assert s == [s[0]] + s[1..];
    }
  }

  /** Rules before the first `x` keep their order; so do the rules after it. */
  lemma {:induction false} RemoveFirstSplit<T>(a: seq<T>, x: T, b: seq<T>)
    requires x !in a
    ensures RemoveFirst(a + [x] + b, x) == a + b
  {
    if a == [] {
      assert a + [x] + b == [x] + b;
    } else {
      assert (a + [x] + b)[1..] == a[1..] + [x] + b;
      RemoveFirstSplit(a[1..], x, b);
      assert a == [a[0]] + a[1..];
    }
  }

  /** Appending `x` and then removing the first `x` keeps the same elements,
      and the same sequence when `x` was not there before. */
  lemma RemoveFirstLast<T>(a: seq<T>, x: T)
    ensures x in a + [x]
    ensures multiset(RemoveFirst(a + [x], x)) == multiset(a)
    ensures x !in a ==> RemoveFirst(a + [x], x) == a
  {
    assert (a + [x])[|a|] == x;
    RemoveFirstMultiset(a + [x], x);
    assert multiset(a + [x]) - multiset{x} == multiset(a);
    if x !in a {
      RemoveFirstSplit(a, x, []);
      assert a + [x] + [] == a + [x];
      assert a + [] == a;
    }
  }

  // ------------------------------------------------------------ the three commands

  /** `iptables -t table -I chain position rule`. */
  function Insert(n: Netfilter, table: string, chain: string, rule: string, position: int): (r: Result<Netfilter>)
    ensures r.Ok? <==> (n.available && (table, chain) in n.chains
                        && 1 <= position <= |n.chains[(table, chain)]| + 1)
    ensures r.Ok? ==> r.value.available
    ensures r.Ok? ==> var rules := n.chains[(table, chain)];
      r.value.chains == n.chains[(table, chain) :=
        rules[..position - 1] + [rule] + rules[position - 1..]]
  {
    if !n.available then Err(IptablesUnavailable)
    else if (table, chain) !in n.chains then Err(NoSuchChain(table, chain))
    else
      var rules := n.chains[(table, chain)];
      if position < 1 || position > |rules| + 1 then Err(BadRuleIndex(table, chain, position))
      else Ok(n.(chains := n.chains[(table, chain) := rules[..position - 1] + [rule] + rules[position - 1..]]))
  }

  /** `iptables -t table -A chain rule`. */
  function Append(n: Netfilter, table: string, chain: string, rule: string): (r: Result<Netfilter>)
    ensures r.Ok? <==> n.available && (table, chain) in n.chains
    ensures r.Ok? ==> r.value == n.(chains := n.chains[(table, chain) := n.chains[(table, chain)] + [rule]])
  {
    if !n.available then Err(IptablesUnavailable)
    else if (table, chain) !in n.chains then Err(NoSuchChain(table, chain))
    else Ok(n.(chains := n.chains[(table, chain) := n.chains[(table, chain)] + [rule]]))
  }

  /** `iptables -t table -D chain rule`: removes the first rule with that text. */
  function Delete(n: Netfilter, table: string, chain: string, rule: string): (r: Result<Netfilter>)
    ensures r.Ok? <==> n.available && (table, chain) in n.chains && rule in n.chains[(table, chain)]
    ensures r.Ok? ==> r.value == n.(chains := n.chains[(table, chain) := RemoveFirst(n.chains[(table, chain)], rule)])
    ensures r.Ok? ==> multiset(r.value.chains[(table, chain)])
                      == multiset(n.chains[(table, chain)]) - multiset{rule}
    ensures r.Err? ==> r.error == (if !n.available then IptablesUnavailable
                                   else if (table, chain) !in n.chains then NoSuchChain(table, chain)
                                   else NoMatchingRule(table, chain))
  {
    if !n.available then Err(IptablesUnavailable)
    else if (table, chain) !in n.chains then Err(NoSuchChain(table, chain))
    else
      var rules := n.chains[(table, chain)];
      if rule !in rules then Err(NoMatchingRule(table, chain))
      else
        RemoveFirstMultiset(rules, rule);
        Ok(n.(chains := n.chains[(table, chain) := RemoveFirst(rules, rule)]))
  }

  /** A rule inserted at the head is the one the next delete removes. */
  lemma DeleteAfterInsert(n: Netfilter, table: string, chain: string, rule: string)
    requires Insert(n, table, chain, rule, 1).Ok?
    ensures Delete(Insert(n, table, chain, rule, 1).value, table, chain, rule) == Ok(n)
  {
    var rules := n.chains[(table, chain)];
    assert rules[..0] + [rule] + rules[0..] == [rule] + rules;
    assert ([rule] + rules)[1..] == rules;
    assert RemoveFirst([rule] + rules, rule) == rules;
    var m := Insert(n, table, chain, rule, 1).value;
    assert m == n.(chains := n.chains[(table, chain) := [rule] + rules]);
    assert rule in m.chains[(table, chain)];
    assert m.chains[(table, chain) := rules] == n.chains;
  }

  // ------------------------------------------------------------ setup and clear

  const MANGLE_POST: ChainId := (MANGLE, POSTROUTING)
  const MANGLE_PRE: ChainId := (MANGLE, PREROUTING)
  const FILTER_FORWARD: ChainId := (FILTER, FORWARD)

  /** Lifts one command into a step: on failure the state stays as it was. */
  function Then(s: NetStep, r: Result<Netfilter>): NetStep
    requires s.result.Ok?
  {
    match r
    case Ok(n') => NetStep(n', Ok(()))
    case Err(e) => NetStep(s.net, Err(e))
  }

  /** `setup_iptables_rules`: queue rule at the head of mangle POSTROUTING and
      PREROUTING, then at the tail of filter FORWARD; the first failing command
      ends the sequence and its error is returned. */
  function Setup(n: Netfilter): NetStep {
    var s1 := Then(NetStep(n, Ok(())), Insert(n, MANGLE, POSTROUTING, RULE, 1));
    if s1.result.Err? then s1
    else
      var s2 := Then(s1, Insert(s1.net, MANGLE, PREROUTING, RULE, 1));
      if s2.result.Err? then s2
      else Then(s2, Append(s2.net, FILTER, FORWARD, RULE))
  }

  /** `clear_iptables_rules`: delete one queue rule from each chain, in the same
      order as setup installs them, stopping at the first failure. */
  function Clear(n: Netfilter): NetStep {
    var s1 := Then(NetStep(n, Ok(())), Delete(n, MANGLE, POSTROUTING, RULE));
    if s1.result.Err? then s1
    else
      var s2 := Then(s1, Delete(s1.net, MANGLE, PREROUTING, RULE));
      if s2.result.Err? then s2
      else Then(s2, Delete(s2.net, FILTER, FORWARD, RULE))
  }

  /** The three chains the service touches all exist. */
  predicate HasChains(n: Netfilter) {
    MANGLE_POST in n.chains && MANGLE_PRE in n.chains && FILTER_FORWARD in n.chains
  }

  lemma ChainIdsDistinct()
    ensures MANGLE_POST != MANGLE_PRE && MANGLE_POST != FILTER_FORWARD && MANGLE_PRE != FILTER_FORWARD
  {
    assert POSTROUTING[1] != PREROUTING[1];
    assert MANGLE[0] != FILTER[0];
  }

  /** With the binary present and the chains in place, setup puts one queue
      rule at the head of both mangle chains and one at the tail of FORWARD,
      and touches nothing else. */
  lemma SetupEffect(n: Netfilter)
    requires n.available && HasChains(n)
    ensures var s := Setup(n);
      && s.result == Ok(())
      && s.net.available
      && s.net.chains == n.chains[MANGLE_POST := [RULE] + n.chains[MANGLE_POST]]
                                 [MANGLE_PRE := [RULE] + n.chains[MANGLE_PRE]]
                                 [FILTER_FORWARD := n.chains[FILTER_FORWARD] + [RULE]]
  {
    ChainIdsDistinct();
    var post := n.chains[MANGLE_POST];
    var pre := n.chains[MANGLE_PRE];
    assert post[..0] + [RULE] + post[0..] == [RULE] + post;
    assert pre[..0] + [RULE] + pre[0..] == [RULE] + pre;
  }

  /** Without the binary nothing happens and setup reports it. */
  lemma SetupUnavailable(n: Netfilter)
    requires !n.available
    ensures Setup(n) == NetStep(n, Err(IptablesUnavailable))
    ensures Clear(n) == NetStep(n, Err(IptablesUnavailable))
  {
  }

  /** Setup is not all-or-nothing: when FORWARD is missing, the two mangle
      rules stay installed although setup fails. */
  lemma SetupPartialFailure(n: Netfilter)
    requires n.available && MANGLE_POST in n.chains && MANGLE_PRE in n.chains && FILTER_FORWARD !in n.chains
    ensures var s := Setup(n);
      && s.result == Err(NoSuchChain(FILTER, FORWARD))
      && s.net.chains == n.chains[MANGLE_POST := [RULE] + n.chains[MANGLE_POST]]
                                 [MANGLE_PRE := [RULE] + n.chains[MANGLE_PRE]]
  {
    ChainIdsDistinct();
    var post := n.chains[MANGLE_POST];
    var pre := n.chains[MANGLE_PRE];
    assert post[..0] + [RULE] + post[0..] == [RULE] + post;
    assert pre[..0] + [RULE] + pre[0..] == [RULE] + pre;
  }

  /** Setup does not check for rules already present: two setups leave two
      queue rules at the head of each mangle chain. */
  lemma SetupTwiceDuplicates(n: Netfilter, k: Netfilter)
    requires n.available && HasChains(n) && k == Setup(Setup(n).net).net
    ensures Setup(Setup(n).net).result == Ok(()) && HasChains(k)
    ensures k.chains[MANGLE_POST] == [RULE, RULE] + n.chains[MANGLE_POST]
    ensures k.chains[MANGLE_PRE] == [RULE, RULE] + n.chains[MANGLE_PRE]
    ensures k.chains[FILTER_FORWARD] == n.chains[FILTER_FORWARD] + [RULE, RULE]
  {
    ChainIdsDistinct();
    SetupEffect(n);
    var m := Setup(n).net;
    SetupEffect(m);
  }

  /** Clear on chains that each carry a queue rule: the head rule of each
      mangle chain goes, and the first one of FORWARD. */
  lemma ClearHeads(m: Netfilter, post: seq<string>, pre: seq<string>, fwd: seq<string>)
    requires m.available && HasChains(m)
    requires m.chains[MANGLE_POST] == [RULE] + post && m.chains[MANGLE_PRE] == [RULE] + pre
    requires m.chains[FILTER_FORWARD] == fwd && RULE in fwd
    ensures Clear(m) == NetStep(m.(chains := m.chains[MANGLE_POST := post][MANGLE_PRE := pre]
                                                     [FILTER_FORWARD := RemoveFirst(fwd, RULE)]), Ok(()))
  {
    ChainIdsDistinct();
    var m1 := m.(chains := m.chains[MANGLE_POST := post]);
    var m2 := m1.(chains := m1.chains[MANGLE_PRE := pre]);
    DeleteHead(m, MANGLE, POSTROUTING, post);
    DeleteHead(m1, MANGLE, PREROUTING, pre);
    assert m2.chains[FILTER_FORWARD] == fwd;
  }

  /** Deleting a rule that heads its chain drops that head. */
  lemma DeleteHead(n: Netfilter, table: string, chain: string, rest: seq<string>)
    requires n.available && (table, chain) in n.chains && n.chains[(table, chain)] == [RULE] + rest
    ensures Delete(n, table, chain, RULE) == Ok(n.(chains := n.chains[(table, chain) := rest]))
  {
    assert ([RULE] + rest)[1..] == rest;
  }

  /** Setup followed by clear, as one change: only FORWARD differs, having
      lost its first queue rule instead of the appended one. */
  lemma ClearAfterSetup(n: Netfilter)
    requires n.available && HasChains(n)
    ensures RULE in n.chains[FILTER_FORWARD] + [RULE]
    ensures Clear(Setup(n).net) == NetStep(n.(chains := n.chains[FILTER_FORWARD :=
              RemoveFirst(n.chains[FILTER_FORWARD] + [RULE], RULE)]), Ok(()))
  {
    ChainIdsDistinct();
    SetupEffect(n);
    var m := Setup(n).net;
    var post := n.chains[MANGLE_POST];
    var pre := n.chains[MANGLE_PRE];
    var fwd := n.chains[FILTER_FORWARD];
    var back := RemoveFirst(fwd + [RULE], RULE);
    assert RULE in fwd + [RULE];
    ClearHeads(m, post, pre, fwd + [RULE]);
    RestoreEntries(n.chains, MANGLE_POST, MANGLE_PRE, FILTER_FORWARD, [RULE] + post, [RULE] + pre, fwd + [RULE], back);
  }

  /** Overwriting three entries and then writing the first two back leaves
      only the third one changed. */
  lemma RestoreEntries<K, V>(a: map<K, V>, k1: K, k2: K, k3: K, x: V, y: V, z: V, w: V)
    requires k1 in a && k2 in a && k1 != k2 && k1 != k3 && k2 != k3
    ensures a[k1 := x][k2 := y][k3 := z][k1 := a[k1]][k2 := a[k2]][k3 := w] == a[k3 := w]
  {
  }

  /** Clearing after a setup removes exactly what setup added: both mangle
      chains come back as they were, FORWARD comes back with the same rules
      (in the same order when it held no queue rule before). That no other
      chain changes is the equation of `ClearAfterSetup`. */
  lemma ClearUndoesSetup(n: Netfilter)
    requires n.available && HasChains(n)
    ensures var c := Clear(Setup(n).net);
      && c.result == Ok(())
      && c.net.available
      && c.net.chains.Keys == n.chains.Keys
      && c.net.chains[MANGLE_POST] == n.chains[MANGLE_POST]
      && c.net.chains[MANGLE_PRE] == n.chains[MANGLE_PRE]
      && multiset(c.net.chains[FILTER_FORWARD]) == multiset(n.chains[FILTER_FORWARD])
      && (RULE !in n.chains[FILTER_FORWARD] ==> c.net.chains[FILTER_FORWARD] == n.chains[FILTER_FORWARD])
  {
    ClearAfterSetup(n);
    var fwd := n.chains[FILTER_FORWARD];
    RemoveFirstLast(fwd, RULE);
    OnlyForwardChanged(n, Clear(Setup(n).net), RemoveFirst(fwd + [RULE], RULE));
  }

  lemma OnlyForwardChanged(n: Netfilter, c: NetStep, fwd: seq<string>)
    requires HasChains(n) && c == NetStep(n.(chains := n.chains[FILTER_FORWARD := fwd]), Ok(()))
    ensures c.net.chains.Keys == n.chains.Keys && c.net.chains[FILTER_FORWARD] == fwd
    ensures c.net.chains[MANGLE_POST] == n.chains[MANGLE_POST] && c.net.chains[MANGLE_PRE] == n.chains[MANGLE_PRE]
  {
    ChainIdsDistinct();
  }

  /** Clearing when no setup ran fails at the first chain and changes nothing. */
  lemma ClearWithoutRules(n: Netfilter)
    requires n.available && MANGLE_POST in n.chains && RULE !in n.chains[MANGLE_POST]
    ensures Clear(n) == NetStep(n, Err(NoMatchingRule(MANGLE, POSTROUTING)))
  {
  }
}
