/**
 The strategy templater: the built-in default strategy and the three
 placeholder passes `start_service` applies to the strategy text, in order —
 every `$hostlist`, then every `$ipset`, then every `$zaprettdir`,
 `${zaprettdir`, `$zaprettdir}` or `${zaprettdir}`.

 Each pass is `Regex::replace_all`: a left-to-right scan that replaces the
 leftmost match, resumes right after it, and copies every other character.
 */
module Template {

  predicate StartsWith(s: string, w: string) {
    |w| <= |s| && s[..|w|] == w
  }

  /** `w` occurs somewhere in `s`. */
  predicate Occurs(s: string, w: string) {
    exists i :: 0 <= i <= |s| && StartsWith(s[i..], w)
  }

  const ZAPRETTDIR: string := "zaprettdir"

  /** The patterns the templater uses: a literal such as `\$hostlist`, and
      `\$\{?zaprettdir\}?`. */
  datatype Pattern = Literal(pat: string) | ZaprettDir

  /** Length of the match of `p` at the head of `x`; 0 means no match. */
  function MatchLength(p: Pattern, x: string): (n: nat)
    ensures n <= |x|
  {
    match p
    case Literal(pat) => if |pat| > 0 && StartsWith(x, pat) then |pat| else 0
    case ZaprettDir => ZaprettDirLength(x)
  }

  /** The match of `\$\{?zaprettdir\}?` at the head of `x`: both optional
      braces are greedy and independent of each other. */
  function ZaprettDirLength(x: string): (n: nat)
    ensures n <= |x|
  {
    var open := if |x| > 1 && x[1] == '{' then 1 else 0;
    if |x| > 0 && x[0] == '$' && StartsWith(x[1 + open..], ZAPRETTDIR) then
      var end := 1 + open + |ZAPRETTDIR|;
      if end < |x| && x[end] == '}' then end + 1 else end
    else 0
  }

  /** The four spellings the pattern accepts, and how much each consumes. */
  lemma ZaprettDirSpellings(x: string)
    ensures ZaprettDirLength("$zaprettdir" + x) == 11 + (if |x| > 0 && x[0] == '}' then 1 else 0)
    ensures ZaprettDirLength("${zaprettdir" + x) == 12 + (if |x| > 0 && x[0] == '}' then 1 else 0)
  {
    var a := "$zaprettdir" + x;
    assert a[1..][..10] == ZAPRETTDIR;
    var b := "${zaprettdir" + x;
    assert b[2..][..10] == ZAPRETTDIR;
  }

  /** A literal matches exactly where its text starts. */
  lemma LiteralMatches(pat: string, x: string)
    requires |pat| > 0
    ensures MatchLength(Literal(pat), x) > 0 <==> StartsWith(x, pat)
  {
  }

  /** `Regex::replace_all(s, rep)` for the pattern `p`. */
  function ReplaceAll(s: string, p: Pattern, rep: string): string
    decreases |s|
  {
    if s == [] then []
    else if MatchLength(p, s) > 0 then rep + ReplaceAll(s[MatchLength(p, s)..], p, rep)
    else [s[0]] + ReplaceAll(s[1..], p, rep)
  }

  lemma ReplaceSkip(s: string, p: Pattern, rep: string, k: nat)
    requires k < |s| && MatchLength(p, s[k..]) == 0
    ensures ReplaceAll(s[k..], p, rep) == [s[k]] + ReplaceAll(s[k + 1..], p, rep)
  {
    assert s[k..][1..] == s[k + 1..];
  }

  lemma ReplaceAtMatch(s: string, p: Pattern, rep: string, k: nat)
    requires k < |s| && MatchLength(p, s[k..]) > 0
    ensures ReplaceAll(s[k..], p, rep) == rep + ReplaceAll(s[k + MatchLength(p, s[k..])..], p, rep)
  {
    assert s[k..][MatchLength(p, s[k..])..] == s[k + MatchLength(p, s[k..])..];
  }

  lemma ConsAssoc<T>(x: T, a: seq<T>, b: seq<T>, c: seq<T>)
    ensures [x] + (a + b + c) == ([x] + a) + b + c
  {
  }

  /** Text with no match anywhere is returned unchanged. */
  lemma {:induction false} ReplaceNoMatch(s: string, p: Pattern, rep: string)
    requires forall j :: 0 <= j < |s| ==> MatchLength(p, s[j..]) == 0
    ensures ReplaceAll(s, p, rep) == s
  {
    NoMatchFrom(s, p, rep, 0);
    assert s[0..] == s;
  }

  lemma {:induction false} NoMatchFrom(s: string, p: Pattern, rep: string, k: nat)
    requires k <= |s|
    requires forall j :: k <= j < |s| ==> MatchLength(p, s[j..]) == 0
    ensures ReplaceAll(s[k..], p, rep) == s[k..]
    decreases |s| - k
  {
    if k < |s| {
      ReplaceSkip(s, p, rep, k);
      NoMatchFrom(s, p, rep, k + 1);
      assert s[k..] == [s[k]] + s[k + 1..];
    }
  }

  /** `i` is the leftmost position where the pattern matches. */
  predicate IsFirstMatch(s: string, p: Pattern, i: int) {
    0 <= i < |s| && MatchLength(p, s[i..]) > 0 && forall j :: 0 <= j < i ==> MatchLength(p, s[j..]) == 0
  }

  /** Everything before the leftmost match is copied verbatim, the match is
      replaced, and the scan resumes right after the match. */
  lemma ReplaceFirstMatch(s: string, p: Pattern, rep: string, i: int)
    requires IsFirstMatch(s, p, i)
    ensures ReplaceAll(s, p, rep) == s[..i] + rep + ReplaceAll(s[i + MatchLength(p, s[i..])..], p, rep)
  {
    FirstMatchFrom(s, p, rep, i, 0);
    assert s[0..] == s;
  }

  lemma {:induction false} FirstMatchFrom(s: string, p: Pattern, rep: string, i: int, k: nat)
    requires IsFirstMatch(s, p, i) && k <= i
    ensures ReplaceAll(s[k..], p, rep) == s[k..i] + rep + ReplaceAll(s[i + MatchLength(p, s[i..])..], p, rep)
    decreases i - k
  {
    if k == i {
      ReplaceAtMatch(s, p, rep, i);
      assert s[k..i] == [];
    } else {
      ReplaceSkip(s, p, rep, k);
      FirstMatchFrom(s, p, rep, i, k + 1);
      assert s[k..i] == [s[k]] + s[k + 1..i];
      ConsAssoc(s[k], s[k + 1..i], rep, ReplaceAll(s[i + MatchLength(p, s[i..])..], p, rep));
    }
  }

  /** A text whose first character differs from the word's does not start with it. */
  lemma FirstCharBlocks(x: string, w: string)
    requires |w| > 0 && |x| > 0 && x[0] != w[0]
    ensures !StartsWith(x, w)
  {
    if |w| <= |x| {
      assert x[..|w|][0] == x[0];
    }
  }

  lemma ConsStartsWith(c: char, x: string, w: string)
    requires |w| > 0
    ensures StartsWith([c] + x, w) <==> c == w[0] && StartsWith(x, w[1..])
  {
    var y := [c] + x;
    if |w| <= |y| {
      assert y[..|w|] == [c] + x[..|w| - 1];
      assert w == [w[0]] + w[1..];
    }
  }

  /** If the result starts with `w`, so did the input, provided the
      replacement cannot start `w`. */
  lemma {:induction false} PrefixComesFromInput(u: string, p: Pattern, rep: string, w: string)
    requires |rep| > 0 && rep[0] !in w
    ensures StartsWith(ReplaceAll(u, p, rep), w) ==> StartsWith(u, w)
    decreases |u|
  {
    if w == [] {
      assert u[..0] == w;
    } else if u != [] {
      var r := ReplaceAll(u, p, rep);
      if MatchLength(p, u) > 0 {
        assert r == rep + ReplaceAll(u[MatchLength(p, u)..], p, rep);
        assert r[0] == rep[0];
        FirstCharBlocks(r, w);
      } else {
        var r1 := ReplaceAll(u[1..], p, rep);
        assert r == [u[0]] + r1;
        PrefixComesFromInput(u[1..], p, rep, w[1..]);
        ConsStartsWith(u[0], r1, w);
        assert u == [u[0]] + u[1..];
        ConsStartsWith(u[0], u[1..], w);
      }
    }
  }

  /** `w` does not occur after a replacement value it cannot start inside. */
  lemma NotAfterRep(rep: string, rt: string, w: string)
    requires |w| > 0 && w[0] !in rep && !Occurs(rt, w)
    ensures !Occurs(rep + rt, w)
  {
    var r := rep + rt;
    forall i | 0 <= i <= |r|
      ensures !StartsWith(r[i..], w)
    {
      if i < |rep| {
        assert r[i..][0] == rep[i];
        FirstCharBlocks(r[i..], w);
      } else {
        assert r[i..] == rt[i - |rep|..];
      }
    }
  }

  lemma NotAfterChar(c: char, rt: string, w: string)
    requires !StartsWith([c] + rt, w) && !Occurs(rt, w)
    ensures !Occurs([c] + rt, w)
  {
    var r := [c] + rt;
    forall i | 1 <= i <= |r|
      ensures !StartsWith(r[i..], w)
    {
      assert r[i..] == rt[i - 1..];
    }
    assert r[0..] == r;
  }

  /** A word is absent from the result when every occurrence of it in the
      input is consumed by a match, the replacement does not contain the word's
      first character, and the word does not contain the replacement's first
      character. */
  lemma {:induction false} ReplaceLeavesNo(s: string, p: Pattern, rep: string, w: string)
    requires |w| > 0 && |rep| > 0 && w[0] !in rep && rep[0] !in w
    requires forall i :: 0 <= i <= |s| && StartsWith(s[i..], w) ==> MatchLength(p, s[i..]) > 0
    ensures !Occurs(ReplaceAll(s, p, rep), w)
    decreases |s|
  {
    if s == [] {
      assert forall i :: 0 <= i <= 0 ==> !StartsWith([][i..], w);
    } else {
      assert s[0..] == s;
      var n := MatchLength(p, s);
      var t := if n > 0 then s[n..] else s[1..];
      var d := if n > 0 then n else 1;
      forall i | 0 <= i <= |t| && StartsWith(t[i..], w)
        ensures MatchLength(p, t[i..]) > 0
      {
        assert t[i..] == s[d + i..];
      }
      ReplaceLeavesNo(t, p, rep, w);
      if n > 0 {
        NotAfterRep(rep, ReplaceAll(t, p, rep), w);
      } else {
        PrefixComesFromInput(s, p, rep, w);
        NotAfterChar(s[0], ReplaceAll(t, p, rep), w);
      }
    }
  }

  // ------------------------------------------------------------- the passes

  const HOSTLIST: string := "$hostlist"
  const IPSET: string := "$ipset"

  /** The three passes of `start_service`, in their order. */
  function Substitute(strategy: string, hosts: string, ipsets: string, zaprettDir: string): string {
    var afterHosts := ReplaceAll(strategy, Literal(HOSTLIST), hosts);
    var afterIpsets := ReplaceAll(afterHosts, Literal(IPSET), ipsets);
    ReplaceAll(afterIpsets, ZaprettDir, zaprettDir)
  }

  /** A value fit to be substituted: non-empty, free of '$', and starting with
      a character none of the placeholders contains. The values the service
      substitutes — "--hostlist…", "--ipset…" and a path — are of this kind. */
  predicate SafeValue(v: string) {
    |v| > 0 && '$' !in v && v[0] !in "${hostlist}" && v[0] !in "${ipset}" && v[0] !in "${zaprettdir}"
  }

  lemma ZaprettDirFires(s: string)
    ensures forall i :: 0 <= i <= |s| && StartsWith(s[i..], "$zaprettdir") ==> MatchLength(ZaprettDir, s[i..]) > 0
    ensures forall i :: 0 <= i <= |s| && StartsWith(s[i..], "${zaprettdir") ==> MatchLength(ZaprettDir, s[i..]) > 0
  {
    forall i | 0 <= i <= |s| && StartsWith(s[i..], "$zaprettdir")
      ensures ZaprettDirLength(s[i..]) > 0
    {
      var x := s[i..];
      assert x == "$zaprettdir" + x[11..];
      ZaprettDirSpellings(x[11..]);
    }
    forall i | 0 <= i <= |s| && StartsWith(s[i..], "${zaprettdir")
      ensures ZaprettDirLength(s[i..]) > 0
    {
      var x := s[i..];
      assert x == "${zaprettdir" + x[12..];
      ZaprettDirSpellings(x[12..]);
    }
  }

  /** After substitution no placeholder is left: every `$hostlist`, `$ipset`,
      `$zaprettdir` and `${zaprettdir` has been replaced, and no later pass
      recreates what an earlier pass removed. */
  lemma SubstituteLeavesNoPlaceholder(strategy: string, hosts: string, ipsets: string, zaprettDir: string)
    requires SafeValue(hosts) && SafeValue(ipsets) && SafeValue(zaprettDir)
    ensures var r := Substitute(strategy, hosts, ipsets, zaprettDir);
      !Occurs(r, HOSTLIST) && !Occurs(r, IPSET) && !Occurs(r, "$zaprettdir") && !Occurs(r, "${zaprettdir")
  {
    var a := ReplaceAll(strategy, Literal(HOSTLIST), hosts);
    var b := ReplaceAll(a, Literal(IPSET), ipsets);
    ReplaceLeavesNo(strategy, Literal(HOSTLIST), hosts, HOSTLIST);
    ReplaceLeavesNo(a, Literal(IPSET), ipsets, IPSET);
    ReplaceLeavesNo(a, Literal(IPSET), ipsets, HOSTLIST);
    ZaprettDirFires(b);
    ReplaceLeavesNo(b, ZaprettDir, zaprettDir, "$zaprettdir");
    ReplaceLeavesNo(b, ZaprettDir, zaprettDir, "${zaprettdir");
    ReplaceLeavesNo(b, ZaprettDir, zaprettDir, HOSTLIST);
    ReplaceLeavesNo(b, ZaprettDir, zaprettDir, IPSET);
  }

  /** A strategy without any '$' passes through the three passes unchanged. */
  lemma SubstituteWithoutPlaceholders(strategy: string, hosts: string, ipsets: string, zaprettDir: string)
    requires '$' !in strategy
    ensures Substitute(strategy, hosts, ipsets, zaprettDir) == strategy
  {
    forall j | 0 <= j < |strategy|
      ensures MatchLength(Literal(HOSTLIST), strategy[j..]) == 0
      ensures MatchLength(Literal(IPSET), strategy[j..]) == 0
      ensures MatchLength(ZaprettDir, strategy[j..]) == 0
    {
      assert strategy[j..][0] == strategy[j];
    }
    ReplaceNoMatch(strategy, Literal(HOSTLIST), hosts);
    ReplaceNoMatch(strategy, Literal(IPSET), ipsets);
    ReplaceNoMatch(strategy, ZaprettDir, zaprettDir);
  }

  /** The built-in strategy used when no user strategy can be read
      (`DEFAULT_START`; the binaries carry the same text). */
  const DEFAULT_START: string :=
    "\n"
    + "        " + "--filter-tcp=80 " + "--dpi-desync=fake,split2 " + "--dpi-desync-autottl=2 " + "--dpi-desync-fooling=md5sig,badsum " + "$hostlist " + "--new\n"
    + "        " + "--filter-tcp=443 " + "$hostlist " + "--dpi-desync=fake,split2 " + "--dpi-desync-repeats=6 " + "--dpi-desync-fooling=md5sig,badsum " + "--dpi-desync-fake-tls=${zaprettdir}" + "/bin/tls_clienthello_www_google_com.bin " + "--new\n"
    + "        " + "--filter-tcp=80,443 " + "--dpi-desync=fake,disorder2 " + "--dpi-desync-repeats=6 " + "--dpi-desync-autottl=2 " + "--dpi-desync-fooling=md5sig,badsum " + "$hostlist " + "--new\n"
    + "        " + "--filter-udp=50000-50100 " + "--dpi-desync=fake " + "--dpi-desync-any-protocol " + "--dpi-desync-fake-quic=0xC30000000108 " + "--new\n"
    + "        " + "--filter-udp=443 " + "$hostlist " + "--dpi-desync=fake " + "--dpi-desync-repeats=6 " + "--dpi-desync-fake-quic=${zaprettdir}" + "/bin/quic_initial_www_google_com.bin " + "--new\n"
    + "        " + "--filter-udp=443 " + "--dpi-desync=fake " + "--dpi-desync-repeats=6 " + "$hostlist\n"
    + "        "
}
