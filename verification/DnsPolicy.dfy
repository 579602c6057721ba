/** Nameserver policy: patterns, the order of rules, and which rule a host name gets. Text is ASCII. */
module DnsPolicy {
  import opened Bytes
  import opened Text

  /** Byte order of strings. */
  predicate Before(a: string, b: string) {
    b != "" && (a == "" || a[0] < b[0] || (a[0] == b[0] && Before(a[1..], b[1..])))
  }

  // ---- the order of patterns ----

  function Suffix(p: string): string {
    if HasPrefix(p, "+.") || HasPrefix(p, "*.") then p[2..] else p
  }

  function Rank(p: string): nat {
    if HasPrefix(p, "+.") then 2 else if HasPrefix(p, "*.") then 3 else 1
  }

  /** The three kinds of pattern: a name, "+." and a name, "*." and a name. */
  lemma PatternKinds(name: string)
    ensures Suffix("+." + name) == Suffix("*." + name) == name && Rank("+." + name) == 2 && Rank("*." + name) == 3
    ensures |name| < 2 || name[1] != '.' || name[0] !in {'+', '*'} ==> Suffix(name) == name && Rank(name) == 1
  {
    var p, q := "+." + name, "*." + name;
    assert p[2..] == name && q[2..] == name && q[0] == '*';
    assert p[..2] == "+." && q[..2] == "*.";
  }

  predicate Less(a: string, b: string) {
    var sa, sb := Suffix(a), Suffix(b);
    if |sa| != |sb| then |sa| > |sb|
    else if Rank(a) != Rank(b) then Rank(a) < Rank(b)
    else if |a| != |b| then |a| > |b|
    else Before(a, b)
  }

  /** Byte order: at the first place where two texts differ, the smaller byte, or the end, comes first. */
  lemma {:induction false} BeforeMeans(a: string, b: string, i: nat)
    requires i <= |a| && i <= |b| && a[..i] == b[..i]
    requires (i < |a| && i < |b| ==> a[i] != b[i]) && (i < |a| || i < |b|)
    ensures Before(a, b) <==> i < |b| && (i == |a| || a[i] < b[i])
  {
    if i > 0 {
      assert a[0] == a[..i][0] == b[..i][0] == b[0];
      assert a[1..][..i - 1] == a[..i][1..] && b[1..][..i - 1] == b[..i][1..];
      BeforeMeans(a[1..], b[1..], i - 1);
    }
  }

  lemma {:induction false} BeforeTotal(a: string, b: string)
    ensures a != b ==> Before(a, b) || Before(b, a)
    ensures !(Before(a, b) && Before(b, a)) && !Before(a, a)
  {
    if a != "" && b != "" {
      BeforeTotal(a[1..], b[1..]);
      BeforeTotal(a[1..], a[1..]);
      assert a == [a[0]] + a[1..] && b == [b[0]] + b[1..];
    } else if a != "" {
      BeforeTotal(a[1..], a[1..]);
    }
  }

  lemma {:induction false} BeforeTransitive(a: string, b: string, c: string)
    requires Before(a, b) && Before(b, c)
    ensures Before(a, c)
  {
    if a != "" && a[0] == b[0] == c[0] {
      BeforeTransitive(a[1..], b[1..], c[1..]);
    }
  }

  /** dnsRuleLess is a strict total order on patterns. */
  lemma LessIsStrictTotal(a: string, b: string, c: string)
    ensures !Less(a, a)
    ensures a != b ==> (Less(a, b) <==> !Less(b, a))
    ensures Less(a, b) && Less(b, c) ==> Less(a, c)
  {
    hide Before, Suffix, Rank;
    BeforeTotal(a, a);
    BeforeTotal(a, b);
    if Before(a, b) && Before(b, c) {
      BeforeTransitive(a, b, c);
    }
  }

  // ---- rules ----

  datatype Server = Server(network: string, addr: string)

  datatype Rule = Rule(pattern: string, servers: seq<Server>)

  /** One entry of the policy map, its servers parsed. */
  datatype Entry = Entry(key: string, servers: seq<Server>)

  predicate Kept(key: string) {
    var k := TrimSpace(key);
    k != "" && !HasPrefix(k, "geosite:") && !HasPrefix(k, "geoip:")
  }

  function RuleOf(e: Entry): seq<Rule> {
    if Kept(e.key) then [Rule(TrimSpace(e.key), e.servers)] else []
  }

  /** An entry gives one rule, under its trimmed key, unless that is empty or about geosite or geoip. */
  lemma RuleMeans(e: Entry)
    ensures var k := TrimSpace(e.key);
      RuleOf(e) == if k == "" || "geosite:" <= k || "geoip:" <= k then [] else [Rule(k, e.servers)]
  {
  }

  function RulesIn(es: seq<Entry>): seq<Rule> {
    if es == [] then [] else RuleOf(es[0]) + RulesIn(es[1..])
  }

  /** Rules with one pattern are one rule: no two entries disagree about a pattern. */
  ghost predicate Agree(rs: seq<Rule>) {
    forall i, j :: 0 <= i < |rs| && 0 <= j < |rs| && rs[i].pattern == rs[j].pattern ==> rs[i] == rs[j]
  }

  /** No rule comes after one it precedes in the order. */
  ghost predicate Sorted(rs: seq<Rule>) {
    forall i, j :: 0 <= i < j < |rs| ==> !Less(rs[j].pattern, rs[i].pattern)
  }

  /** `out` is `rs` in order. */
  ghost predicate SortOf(out: seq<Rule>, rs: seq<Rule>) {
    multiset(out) == multiset(rs) && Sorted(out)
  }

  function Insert(r: Rule, rs: seq<Rule>): seq<Rule> {
    if rs == [] || Less(r.pattern, rs[0].pattern) then [r] + rs else [rs[0]] + Insert(r, rs[1..])
  }

  /** A stable sort: rules are inserted in turn, each after its equals. */
  function Sort(rs: seq<Rule>): seq<Rule> {
    if rs == [] then [] else Insert(rs[|rs| - 1], Sort(rs[..|rs| - 1]))
  }

  lemma {:induction false} InsertKeeps(r: Rule, rs: seq<Rule>)
    ensures multiset(Insert(r, rs)) == multiset(rs) + multiset{r}
  {
    hide Less;
    if rs != [] && !Less(r.pattern, rs[0].pattern) {
      InsertKeeps(r, rs[1..]);
      assert rs == [rs[0]] + rs[1..];
    }
  }

  lemma {:induction false} InsertSorted(r: Rule, rs: seq<Rule>)
    requires Sorted(rs)
    ensures Sorted(Insert(r, rs))
  {
    hide Less;
    var out := Insert(r, rs);
    if rs == [] {
    } else if Less(r.pattern, rs[0].pattern) {
      forall j | 0 < j < |out|
        ensures !Less(out[j].pattern, r.pattern)
      {
        LessIsStrictTotal(out[j].pattern, r.pattern, rs[0].pattern);
        LessIsStrictTotal(rs[0].pattern, r.pattern, rs[0].pattern);
      }
    } else {
      InsertSorted(r, rs[1..]);
      var rest := Insert(r, rs[1..]);
      InsertKeeps(r, rs[1..]);
      forall j | 0 <= j < |rest|
        ensures !Less(rest[j].pattern, rs[0].pattern)
      {
        assert rest[j] in multiset(rest);
        assert rest[j] == r || rest[j] in rs[1..];
      }
    }
  }

  lemma {:induction false} SortSorts(rs: seq<Rule>)
    ensures SortOf(Sort(rs), rs)
  {
    if rs != [] {
      var init, last := rs[..|rs| - 1], rs[|rs| - 1];
      SortSorts(init);
      InsertSorted(last, Sort(init));
      InsertKeeps(last, Sort(init));
      assert rs == init + [last];
    }
  }

  lemma CutMatches<T>(a: seq<T>, b: seq<T>, j: nat)
    requires multiset(a) == multiset(b) && a != [] && j < |b| && b[j] == a[0]
    ensures multiset(a[1..]) == multiset(b[..j] + b[j + 1..])
  {
    assert a == [a[0]] + a[1..];
    assert b == b[..j] + [b[j]] + b[j + 1..];
    assert multiset(a) - multiset{a[0]} == multiset(a[1..]);
    assert multiset(b) - multiset{b[j]} == multiset(b[..j] + b[j + 1..]);
  }

  /** When the rules agree there is only one sorted arrangement of them. */
  lemma {:induction false} SortUnique(a: seq<Rule>, b: seq<Rule>)
    requires multiset(a) == multiset(b) && Sorted(a) && Sorted(b) && Agree(a)
    ensures a == b
    decreases |a|
  {
    hide Less, Sorted, Agree;
    SameLength(a, b);
    if a != [] {
      HeadsAgree(a, b);
      TailKeeps(a);
      TailKeeps(b);
      CutMatches(a, b, 0);
      assert b[..0] + b[1..] == b[1..];
      SortUnique(a[1..], b[1..]);
      assert a == [a[0]] + a[1..] && b == [b[0]] + b[1..];
    }
  }

  lemma SameLength<T>(a: seq<T>, b: seq<T>)
    requires multiset(a) == multiset(b)
    ensures |a| == |b|
  {
    assert |multiset(a)| == |a| && |multiset(b)| == |b|;
  }

  lemma TailKeeps(a: seq<Rule>)
    requires a != []
    ensures Sorted(a) ==> Sorted(a[1..])
    ensures Agree(a) ==> Agree(a[1..])
  {
    hide Less;
  }

  lemma HeadsAgree(a: seq<Rule>, b: seq<Rule>)
    requires multiset(a) == multiset(b) && Sorted(a) && Sorted(b) && Agree(a)
    requires a != [] && b != []
    ensures a[0] == b[0]
  {
    hide Less;
    assert a[0] in multiset(b) && b[0] in multiset(a);
    var i :| 0 <= i < |a| && a[i] == b[0];
    var j :| 0 <= j < |b| && b[j] == a[0];
    LessIsStrictTotal(a[0].pattern, a[i].pattern, a[0].pattern);
    LessIsStrictTotal(b[0].pattern, b[j].pattern, b[0].pattern);
  }

  // ---- stability ----

  /** The rules for one pattern, in order. */
  function For(rs: seq<Rule>, p: string): seq<Rule> {
    if rs == [] then [] else (if rs[0].pattern == p then [rs[0]] else []) + For(rs[1..], p)
  }

  lemma {:induction false} ForAppend(rs: seq<Rule>, r: Rule, p: string)
    ensures For(rs + [r], p) == For(rs, p) + (if r.pattern == p then [r] else [])
  {
    if rs == [] {
      assert rs + [r] == [r];
      assert For([r][1..], p) == [];
    } else {
      assert (rs + [r])[1..] == rs[1..] + [r];
      ForAppend(rs[1..], r, p);
      Assoc(if rs[0].pattern == p then [rs[0]] else [], For(rs[1..], p), if r.pattern == p then [r] else []);
    }
  }

  lemma {:induction false} ForNone(rs: seq<Rule>, p: string)
    requires forall i :: 0 <= i < |rs| ==> rs[i].pattern != p
    ensures For(rs, p) == []
  {
    if rs != [] {
      ForNone(rs[1..], p);
    }
  }

  lemma {:induction false} InsertStable(r: Rule, rs: seq<Rule>, p: string)
    requires Sorted(rs)
    ensures For(Insert(r, rs), p) == For(rs, p) + (if r.pattern == p then [r] else [])
  {
    hide Less;
    var own := if r.pattern == p then [r] else [];
    if rs == [] {
      assert For([r], p) == own + For([r][1..], p) && For([], p) == [];
    } else if Less(r.pattern, rs[0].pattern) {
      assert ([r] + rs)[1..] == rs;
      if r.pattern == p {
        forall i | 0 <= i < |rs|
          ensures rs[i].pattern != p
        {
          LessIsStrictTotal(p, rs[0].pattern, p);
        }
        ForNone(rs, p);
      }
    } else {
      InsertStable(r, rs[1..], p);
      var head := if rs[0].pattern == p then [rs[0]] else [];
      assert ([rs[0]] + Insert(r, rs[1..]))[1..] == Insert(r, rs[1..]);
      Assoc(head, For(rs[1..], p), own);
    }
  }

  /** The sort leaves the rules of each pattern in the order they came. */
  lemma {:induction false} SortStable(rs: seq<Rule>, p: string)
    ensures For(Sort(rs), p) == For(rs, p)
  {
    if rs != [] {
      var init, last := rs[..|rs| - 1], rs[|rs| - 1];
      SortStable(init, p);
      SortSorts(init);
      InsertStable(last, Sort(init), p);
      ForAppend(init, last, p);
      assert init + [last] == rs;
    }
  }

  method RulesFromMap(es: seq<Entry>) returns (out: seq<Rule>)
    ensures out == Sort(RulesIn(es))
  {
    out := [];
    for i := 0 to |es|
      invariant out == RulesIn(es[..i])
    {
      RulesAppend(es[..i], es[i]);
      assert es[..i + 1] == es[..i] + [es[i]];
      var k := TrimSpace(es[i].key);
      if k == "" || HasPrefix(k, "geosite:") || HasPrefix(k, "geoip:") {
        continue;
      }
      out := out + [Rule(k, es[i].servers)];
    }
    assert es[..|es|] == es;
    out := Sort(out);
  }

  lemma {:induction false} RulesAppend(es: seq<Entry>, e: Entry)
    ensures RulesIn(es + [e]) == RulesIn(es) + RuleOf(e)
  {
    hide RuleOf;
    if es == [] {
      assert es + [e] == [e];
      assert RulesIn([e][1..]) == [];
    } else {
      assert (es + [e])[1..] == es[1..] + [e];
      RulesAppend(es[1..], e);
      assert RuleOf(es[0]) + (RulesIn(es[1..]) + RuleOf(e)) == RuleOf(es[0]) + RulesIn(es[1..]) + RuleOf(e);
    }
  }

  lemma {:induction false} RulesSplit(a: seq<Entry>, e: Entry, b: seq<Entry>)
    ensures multiset(RulesIn(a + [e] + b)) == multiset(RulesIn(a + b)) + multiset(RuleOf(e))
  {
    hide RuleOf;
    if a == [] {
      assert a + [e] + b == [e] + b && a + b == b;
      assert ([e] + b)[1..] == b;
    } else {
      assert (a + [e] + b)[1..] == a[1..] + [e] + b && (a + b)[1..] == a[1..] + b;
      RulesSplit(a[1..], e, b);
    }
  }

  /** The rules of a map are the same collection in whatever order its entries are visited. */
  lemma {:induction false} RulesPermute(a: seq<Entry>, b: seq<Entry>)
    requires multiset(a) == multiset(b)
    ensures multiset(RulesIn(a)) == multiset(RulesIn(b))
    decreases |a|
  {
    hide RulesIn, RuleOf;
    assert |a| == |multiset(a)| == |multiset(b)| == |b|;
    if a == [] {
      assert b == [];
    } else {
      var j := Occurs(a[0], b, multiset(a));
      CutMatches(a, b, j);
      var rest := b[..j] + b[j + 1..];
      assert b == b[..j] + [a[0]] + b[j + 1..];
      assert a == [] + [a[0]] + a[1..] && [] + a[1..] == a[1..];
      RulesSplit([], a[0], a[1..]);
      RulesSplit(b[..j], a[0], b[j + 1..]);
      RulesPermute(a[1..], rest);
    }
  }

  lemma Occurs(e: Entry, b: seq<Entry>, m: multiset<Entry>) returns (j: nat)
    requires m == multiset(b) && e in m
    ensures j < |b| && b[j] == e
  {
    assert e in b;
    j :| 0 <= j < |b| && b[j] == e;
  }

  /** The entries with the i-th visited first. */
  function Fronted(es: seq<Entry>, i: nat): (b: seq<Entry>)
    requires i < |es|
    ensures multiset(b) == multiset(es)
  {
    assert es == es[..i] + [es[i]] + es[i + 1..];
    [es[i]] + es[..i] + es[i + 1..]
  }

  /** The rule of the entry visited first is the first rule of its pattern. */
  lemma FrontedFirst(es: seq<Entry>, i: nat, r: Rule)
    requires i < |es| && RuleOf(es[i]) == [r]
    ensures For(RulesIn(Fronted(es, i)), r.pattern) != [] && For(RulesIn(Fronted(es, i)), r.pattern)[0] == r
  {
    hide RuleOf;
    var b := Fronted(es, i);
    assert b[0] == es[i];
    assert RulesIn(b) == [r] + RulesIn(b[1..]);
    assert ([r] + RulesIn(b[1..]))[0] == r;
  }

  /** The rule list does not depend on the order of map iteration. */
  ghost predicate OrderFree(es: seq<Entry>) {
    forall b: seq<Entry> :: multiset(b) == multiset(es) ==> Sort(RulesIn(b)) == Sort(RulesIn(es))
  }

  lemma FrontedSame(es: seq<Entry>, i: nat, r: Rule)
    requires OrderFree(es) && i < |es| && RuleOf(es[i]) == [r]
    ensures For(RulesIn(es), r.pattern) != [] && For(RulesIn(es), r.pattern)[0] == r
  {
    hide RulesIn, Sort, RuleOf, For;
    FrontedFirst(es, i, r);
    SortStable(RulesIn(Fronted(es, i)), r.pattern);
    SortStable(RulesIn(es), r.pattern);
  }

  lemma AgreeSuffices(es: seq<Entry>, b: seq<Entry>)
    requires multiset(b) == multiset(es) && Agree(RulesIn(es))
    ensures Sort(RulesIn(b)) == Sort(RulesIn(es))
  {
    hide RulesIn, Sort;
    RulesPermute(es, b);
    SortSorts(RulesIn(es));
    SortSorts(RulesIn(b));
    AgreeAfterSort(Sort(RulesIn(es)), RulesIn(es));
    SortUnique(Sort(RulesIn(es)), Sort(RulesIn(b)));
  }

  lemma AgreeAfterSort(out: seq<Rule>, rs: seq<Rule>)
    requires multiset(out) == multiset(rs) && Agree(rs)
    ensures Agree(out)
  {
    forall i, j | 0 <= i < |out| && 0 <= j < |out| && out[i].pattern == out[j].pattern
      ensures out[i] == out[j]
    {
      assert out[i] in multiset(rs) && out[j] in multiset(rs);
      var x :| 0 <= x < |rs| && rs[x] == out[i];
      var y :| 0 <= y < |rs| && rs[y] == out[j];
    }
  }

  lemma AgreeNeeded(es: seq<Entry>, i: nat, j: nat)
    requires OrderFree(es) && i < |RulesIn(es)| && j < |RulesIn(es)|
    requires RulesIn(es)[i].pattern == RulesIn(es)[j].pattern
    ensures RulesIn(es)[i] == RulesIn(es)[j]
  {
    hide RulesIn, RuleOf, OrderFree, For;
    var p, q := RulesIn(es)[i], RulesIn(es)[j];
    RulesMembers(es, p);
    RulesMembers(es, q);
    var e :| e in es && RuleOf(e) == [p];
    var f :| f in es && RuleOf(f) == [q];
    var x :| 0 <= x < |es| && es[x] == e;
    var y :| 0 <= y < |es| && es[y] == f;
    FrontedSame(es, x, p);
    FrontedSame(es, y, q);
  }

  /** For every map: its rule list is the same in whatever order its entries are visited if and only if no two
      entries give one pattern different servers. */
  lemma OrderIndependent(es: seq<Entry>)
    ensures OrderFree(es) <==> Agree(RulesIn(es))
  {
    hide RulesIn, Sort;
    if Agree(RulesIn(es)) {
      forall b: seq<Entry> | multiset(b) == multiset(es)
        ensures Sort(RulesIn(b)) == Sort(RulesIn(es))
      {
        AgreeSuffices(es, b);
      }
    }
    if OrderFree(es) {
      forall i, j | 0 <= i < |RulesIn(es)| && 0 <= j < |RulesIn(es)| && RulesIn(es)[i].pattern == RulesIn(es)[j].pattern
        ensures RulesIn(es)[i] == RulesIn(es)[j]
      {
        AgreeNeeded(es, i, j);
      }
    }
  }

  /** A witness: two keys that trim to one pattern, with different servers. The first visited comes first. */
  lemma OrderShows()
    ensures var a, b := Entry("x", [Server("udp", "1")]), Entry(" x", [Server("udp", "2")]);
      Sort(RulesIn([a, b])) != Sort(RulesIn([b, a]))
  {
    var a, b := Entry("x", [Server("udp", "1")]), Entry(" x", [Server("udp", "2")]);
    assert TrimSpace("x") == "x";
    assert TrimLeft(" x") == TrimLeft(" x"[1..]) && " x"[1..] == "x";
    assert TrimSpace(" x") == "x";
    var ra, rb := Rule("x", a.servers), Rule("x", b.servers);
    assert RulesIn([a, b]) == [ra] + RulesIn([a, b][1..]) && [a, b][1..] == [b];
    assert RulesIn([b, a]) == [rb] + RulesIn([b, a][1..]) && [b, a][1..] == [a];
    assert RulesIn([b]) == [rb] + RulesIn([b][1..]) && RulesIn([a]) == [ra] + RulesIn([a][1..]);
    assert RulesIn([a, b]) == [ra, rb] && RulesIn([b, a]) == [rb, ra];
    LessIsStrictTotal("x", "x", "x");
    SortTwo(ra, rb);
    SortTwo(rb, ra);
  }

  lemma SortTwo(p: Rule, q: Rule)
    requires !Less(q.pattern, p.pattern)
    ensures Sort([p, q]) == [p, q]
  {
    assert [p, q][..1] == [p] && [p][..0] == [];
    assert Sort([p]) == Insert(p, Sort([p][..0]));
    assert Sort([p]) == [p];
    assert Insert(q, [p]) == [p] + Insert(q, [p][1..]);
  }

  // ---- matching ----

  predicate DomainMatch(pattern: string, host: string) {
    var p, h := Lower(TrimSpace(pattern)), Lower(TrimLast(TrimSpace(host), '.'));
    p != "" && h != "" &&
    if HasPrefix(p, "+.") then h == p[2..] || HasSuffix(h, p[1..])
    else if HasPrefix(p, "*.") then HasSuffix(h, p[1..])
    else h == p
  }

  function SplitDots(s: string): (r: seq<string>)
    ensures r != []
  {
    SplitOn(s, '.')
  }

  lemma {:induction false} SplitAtDot(a: string, b: string)
    ensures SplitDots(a + "." + b) == SplitDots(a) + SplitDots(b)
  {
    if a == "" {
      assert (a + "." + b)[1..] == b;
      assert SplitDots(a) == [""];
    } else {
      assert (a + "." + b)[1..] == a[1..] + "." + b;
      SplitAtDot(a[1..], b);
      assert SplitDots(a[1..]) != [];
    }
  }

  function JoinDots(ls: seq<string>): string
    requires ls != []
  {
    if |ls| == 1 then ls[0] else ls[0] + "." + JoinDots(ls[1..])
  }

  lemma {:induction false} JoinSplit(s: string)
    ensures JoinDots(SplitDots(s)) == s
  {
    if s != "" {
      var more := SplitDots(s[1..]);
      JoinSplit(s[1..]);
      if s[0] == '.' {
        assert SplitDots(s) == [""] + more && SplitDots(s)[1..] == more;
        assert "" + "." + s[1..] == s;
      } else {
        var r := SplitDots(s);
        assert r == [[s[0]] + more[0]] + more[1..];
        assert |r| > 1 ==> r[1..] == more[1..];
        if |more| > 1 {
          assert r[0] + "." + JoinDots(more[1..]) == [s[0]] + (more[0] + "." + JoinDots(more[1..]));
        }
      }
    }
  }

  lemma {:induction false} JoinConcat(a: seq<string>, b: seq<string>)
    requires a != [] && b != []
    ensures JoinDots(a + b) == JoinDots(a) + "." + JoinDots(b)
  {
    if |a| == 1 {
      assert (a + b)[1..] == b;
    } else {
      assert (a + b)[1..] == a[1..] + b;
      JoinConcat(a[1..], b);
    }
  }

  ghost predicate UnderDomain(h: string, s: string) {
    exists k :: 0 <= k < |SplitDots(h)| && SplitDots(h)[k..] == SplitDots(s)
  }

  lemma SuffixIsUnder(h: string, s: string)
    requires h == s || HasSuffix(h, "." + s)
    ensures UnderDomain(h, s)
  {
    hide SplitDots;
    if h == s {
      assert SplitDots(h)[0..] == SplitDots(s);
    } else {
      var a := h[..|h| - |s| - 1];
      assert h == a + ("." + s) == a + "." + s;
      SplitAtDot(a, s);
      assert SplitDots(h)[|SplitDots(a)|..] == SplitDots(s);
    }
  }

  lemma UnderIsSuffix(h: string, s: string, k: nat)
    requires k < |SplitDots(h)| && SplitDots(h)[k..] == SplitDots(s)
    ensures h == s || HasSuffix(h, "." + s)
  {
    hide SplitDots, JoinDots;
    var ls := SplitDots(h);
    JoinSplit(h);
    JoinSplit(s);
    if k == 0 {
      assert ls[0..] == ls;
    } else {
      assert ls == ls[..k] + ls[k..];
      JoinConcat(ls[..k], ls[k..]);
      assert h == JoinDots(ls[..k]) + ("." + s);
    }
  }

  /** "+.s" matches exactly the names that are `s` or end, label by label, in `s`. */
  lemma PlusMatchesByLabel(h: string, s: string)
    ensures h == s || HasSuffix(h, "." + s) <==> UnderDomain(h, s)
  {
    hide SplitDots, HasSuffix;
    if h == s || HasSuffix(h, "." + s) {
      SuffixIsUnder(h, s);
    }
    if UnderDomain(h, s) {
      var k :| 0 <= k < |SplitDots(h)| && SplitDots(h)[k..] == SplitDots(s);
      UnderIsSuffix(h, s, k);
    }
  }

  /** The three kinds of pattern, by labels: the name itself, anything at or under it, anything under it. */
  lemma DomainMatchByLabel(pattern: string, host: string)
    ensures var p, h := Lower(TrimSpace(pattern)), Lower(TrimLast(TrimSpace(host), '.'));
      var fits := (match Rank(p)
                   case 2 => UnderDomain(h, Suffix(p))
                   case 3 => UnderDomain(h, Suffix(p)) && h != Suffix(p)
                   case _ => h == p);
      DomainMatch(pattern, host) <==> (p != "" && h != "" && fits)
  {
    hide UnderDomain, Lower, TrimSpace, TrimLast;
    var p, h := Lower(TrimSpace(pattern)), Lower(TrimLast(TrimSpace(host), '.'));
    PlusMatchesByLabel(h, Suffix(p));
    if HasPrefix(p, "+.") || HasPrefix(p, "*.") {
      assert p[1..] == "." + Suffix(p);
    }
  }

  // ---- the policy ----

  predicate Serves(r: Rule, host: string) {
    DomainMatch(r.pattern, host) && r.servers != []
  }

  /** The first rule that serves a host, or the number of rules when none does. */
  function FirstServing(rs: seq<Rule>, host: string): (at: nat)
    ensures at <= |rs| && (at < |rs| ==> Serves(rs[at], host))
    ensures forall i :: 0 <= i < at ==> !Serves(rs[i], host)
  {
    if rs == [] || Serves(rs[0], host) then 0 else 1 + FirstServing(rs[1..], host)
  }

  method Match(policies: seq<Rule>, fallback: seq<Server>, host: string) returns (servers: seq<Server>)
    ensures var at := FirstServing(policies, host);
      servers == if at < |policies| then policies[at].servers else fallback
  {
    hide DomainMatch;
    for i := 0 to |policies|
      invariant forall j :: 0 <= j < i ==> !Serves(policies[j], host)
    {
      if DomainMatch(policies[i].pattern, host) && |policies[i].servers| > 0 {
        assert Serves(policies[i], host);
        return policies[i].servers;
      }
    }
    return fallback;
  }

  lemma FirstIsBest(rs: seq<Rule>, host: string, at: nat, other: nat)
    requires Sorted(rs) && at < |rs| && other < |rs|
    requires Serves(rs[at], host) && Serves(rs[other], host)
    requires forall i :: 0 <= i < at ==> !Serves(rs[i], host)
    ensures AsSpecific(rs[at].pattern, rs[other].pattern)
  {
    hide DomainMatch;
    assert at <= other;
    LessIsStrictTotal(rs[at].pattern, rs[other].pattern, rs[at].pattern);
  }

  /** A longer suffix comes first, and with the same length the exact name before "+." and that before "*.". */
  predicate AsSpecific(p: string, q: string) {
    |Suffix(p)| > |Suffix(q)| || (|Suffix(p)| == |Suffix(q)| && Rank(p) <= Rank(q))
  }

  lemma {:induction false} RulesMembers(es: seq<Entry>, r: Rule)
    ensures r in RulesIn(es) <==> exists e :: e in es && RuleOf(e) == [r]
  {
    hide RuleOf;
    if es != [] {
      RulesMembers(es[1..], r);
      assert es == [es[0]] + es[1..];
      RuleOfShort(es[0]);
      assert r in RuleOf(es[0]) <==> RuleOf(es[0]) == [r];
    }
  }

  lemma RuleOfShort(e: Entry)
    ensures |RuleOf(e)| <= 1
  {
  }

  /** On the rules of one map, whatever the order of its entries, the rule Match finds belongs to an entry and is
      as specific as every other entry that serves the host; none is found only when no entry does. */
  lemma MatchOnMap(es: seq<Entry>, host: string)
    ensures var rs := Sort(RulesIn(es)); var at := FirstServing(rs, host);
      && (at < |rs| ==> exists e :: e in es && RuleOf(e) == [rs[at]])
      && (forall e, q :: e in es && RuleOf(e) == [q] && Serves(q, host) ==>
            at < |rs| && var p := rs[at].pattern;
            |Suffix(p)| > |Suffix(q.pattern)| || (|Suffix(p)| == |Suffix(q.pattern)| && Rank(p) <= Rank(q.pattern)))
  {
    hide RulesIn, Sort, Serves, RuleOf, FirstServing, Suffix, Rank;
    var rs := Sort(RulesIn(es));
    var at := FirstServing(rs, host);
    SortSorts(RulesIn(es));
    if at < |rs| {
      assert rs[at] in multiset(rs);
      RulesMembers(es, rs[at]);
    }
    forall e, q | e in es && RuleOf(e) == [q] && Serves(q, host)
      ensures at < |rs| && AsSpecific(rs[at].pattern, q.pattern)
    {
      RulesMembers(es, q);
      assert q in multiset(rs);
      var j :| 0 <= j < |rs| && rs[j] == q;
      FirstIsBest(rs, host, at, j);
    }
  }
}
