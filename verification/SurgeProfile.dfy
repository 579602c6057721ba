/** What a client of a rewritten Surge profile gets: which of the template's lines, which mapping lines and which
    automatic groups stand in which section, for every template. */
module SurgeProfile {
  import opened Bytes
  import opened Text
  import opened SurgeGroups
  import opened SurgeRewrite
  import opened SurgeOutput

  // ---- the words of a profile, in literal text ----

  /** A line that stays in a proxy section: blank, a comment, or one that defines Direct or Block, in any case. */
  predicate Stays(line: string) {
    var t := TrimSpace(line);
    var low := Lower(t);
    || t == "" || t[0] == '#'
    || "direct " <= low || "direct=" <= low || "block " <= low || "block=" <= low
  }

  lemma StaysIsKept(line: string)
    ensures Stays(line) <==> Kept(line)
  {
    hide Lower, TrimSpace;
  }

  /** A heading stands in brackets; a comment begins with a hash; the sections that count are called proxy and proxy
      group, in any case; a profile's header names its address and is renewed daily. */
  lemma Words(line: string, url: string)
    ensures var t := TrimSpace(line);
      && (IsHeading(t) <==> t != "" && t[0] == '[' && t[|t| - 1] == ']')
      && (InProxy(t) <==> Lower(t) == "[proxy]") && (InGroups(t) <==> Lower(t) == "[proxy group]")
      && (Blank(t) <==> t == "" || t[0] == '#')
      && (IsManaged(line) <==> "#!MANAGED-CONFIG" <= t)
    ensures ManagedLine(url) == "#!MANAGED-CONFIG " + url + " interval=86400 strict=false"
    ensures PLAIN_SECTION == [Line("[Proxy]", Heading), Line("Direct = direct", Filler), Line("Block = reject", Filler)]
  {
    var t := TrimSpace(line);
    hide TrimSpace;
    SectionNames();
    hide Lower;
    if IsHeading(t) {
      assert t[|t| - 1..] == "]";
      assert t[|t| - 1] == t[|t| - 1..][0];
    }
    if t != "" && t[0] == '[' && t[|t| - 1] == ']' {
      assert t[|t| - 1..] == [t[|t| - 1]];
    }
  }

  /** An automatic group added has every mapping, tested for speed or chosen by the client. */
  lemma AddedMeans(names: seq<string>)
    ensures AddedAuto(UrlTest, names) == "Auto - UrlTest = url-test, " + JoinComma(names)
    ensures AddedAuto(Smart, names) == "Auto - Smart = smart, " + JoinComma(names)
    ensures AutoName(UrlTest) == "Auto - UrlTest" && AutoName(Smart) == "Auto - Smart"
  {
    assert URL_TEST + " = url-test, " == "Auto - UrlTest = url-test, ";
    assert SMART + " = smart, " == "Auto - Smart = smart, ";
  }

  lemma SectionNames()
    ensures Lower("[Proxy]") == "[proxy]" && Lower("[Proxy Group]") == "[proxy group]"
  {
  }

  // ---- sections of the template ----

  /** The section in force before line `i`: the last heading above it. */
  function SectionAt(lines: seq<string>, i: nat): string
    requires i <= |lines|
  {
    if i == 0 then ""
    else if !IsManaged(lines[i - 1]) && IsHeading(TrimSpace(lines[i - 1])) then TrimSpace(lines[i - 1])
    else SectionAt(lines, i - 1)
  }

  /** Line `i` stands for a remote proxy: where the first one stood, the mappings go. */
  predicate Remote(lines: seq<string>, i: nat)
    requires i < |lines|
  {
    && !IsManaged(lines[i]) && !IsHeading(TrimSpace(lines[i]))
    && InProxy(SectionAt(lines, i)) && !Stays(lines[i])
  }

  /** Line `i` brings the automatic group: it names it in a group section, or it is the heading that ends a
      section spelled "[Proxy Group]". */
  predicate Brings(lines: seq<string>, i: nat, kind: Kind, names: seq<string>)
    requires i < |lines|
  {
    var trim, section := TrimSpace(lines[i]), SectionAt(lines, i);
    && !IsManaged(lines[i])
    && if IsHeading(trim) then section == "[Proxy Group]" && names != []
       else InGroups(section) && !Blank(trim) && EqualFold(GroupName(lines[i]), AutoName(kind))
  }

  /** The group it brings: its own rewritten, or the one added. */
  function BringText(line: string, kind: Kind, names: seq<string>): string {
    if IsHeading(TrimSpace(line)) then AddedAuto(kind, names) else AutoOf(line, names)
  }

  /** What the profile keeps of line `i`. */
  function PlainOf(line: string, section: string, names: seq<string>, url: string): seq<Line> {
    if IsManaged(line) then [Line(ManagedLine(url), Managed)]
    else if IsHeading(TrimSpace(line)) then [Line(line, Heading)]
    else if InProxy(section) then if Stays(line) then [Line(line, Body)] else []
    else if InGroups(section) then
      if Blank(TrimSpace(line)) then [Line(line, Body)]
      else if IsAuto(GroupName(line)) then [] else [Line(ExpandOf(line, names), Expanded)]
    else [Line(line, Body)]
  }

  function PlainUpTo(lines: seq<string>, n: nat, names: seq<string>, url: string): seq<Line>
    requires n <= |lines|
  {
    if n == 0 then []
    else PlainUpTo(lines, n - 1, names, url) + PlainOf(lines[n - 1], SectionAt(lines, n - 1), names, url)
  }

  // ---- picking lines out of the output ----

  /** The automatic groups of a kind, or the lines that are neither mapping lines nor automatic groups nor blank
      lines put in between. */
  datatype Which = Plain | Automatic(kind: Kind)

  predicate Is(l: Line, which: Which) {
    match which
    case Plain => !l.from.Auto? && !l.from.Proxy? && (l.from.Filler? ==> l.text != "")
    case Automatic(kind) => l.from == Auto(kind)
  }

  function Picked(out: seq<Line>, which: Which): seq<Line> {
    if out == [] then []
    else Picked(out[..|out| - 1], which) + (if Is(out[|out| - 1], which) then [out[|out| - 1]] else [])
  }

  lemma {:induction false} PickedConcat(a: seq<Line>, b: seq<Line>, which: Which)
    ensures Picked(a + b, which) == Picked(a, which) + Picked(b, which)
  {
    hide Is;
    if b == [] {
      assert a + b == a;
    } else {
      assert (a + b)[..|a + b| - 1] == a + b[..|b| - 1];
      PickedConcat(a, b[..|b| - 1], which);
    }
  }

  lemma {:induction false} PickedNone(out: seq<Line>, which: Which)
    requires forall i :: 0 <= i < |out| ==> !Is(out[i], which)
    ensures Picked(out, which) == []
  {
    if out != [] {
      PickedNone(out[..|out| - 1], which);
    }
  }

  lemma PickedOne(l: Line, which: Which)
    ensures Picked([l], which) == if Is(l, which) then [l] else []
  {
    assert [l][..0] == [];
    assert Picked([], which) == [];
  }

  lemma {:induction false} PickedIn(out: seq<Line>, which: Which)
    ensures forall l :: l in Picked(out, which) <==> l in out && Is(l, which)
  {
    hide Is;
    if out != [] {
      PickedIn(out[..|out| - 1], which);
      assert out == out[..|out| - 1] + [out[|out| - 1]];
    }
  }

  lemma PickedEmit(s: State, text: string, from: Origin, which: Which)
    ensures Picked(Emit(s, text, from).out, which) ==
      Picked(s.out, which) + (if Is(Line(text, from), which) then [Line(text, from)] else [])
  {
    hide Is, Picked;
    PickedConcat(s.out, [Line(text, from)], which);
    PickedOne(Line(text, from), which);
  }

  predicate Wrote(s: State, kind: Kind) {
    if kind.UrlTest? then s.wroteURLTest else s.wroteSmart
  }

  /** What one step adds of each kind of line. */
  function Adds(s: State, lines: seq<string>, i: nat, names: seq<string>, url: string, which: Which): seq<Line>
    requires i < |lines|
  {
    match which
    case Plain => PlainOf(lines[i], s.section, names, url)
    case Automatic(kind) =>
      if !Wrote(s, kind) && Brings(lines, i, kind, names) then [Line(BringText(lines[i], kind, names), Auto(kind))]
      else []
  }

  lemma PickedFlush(s: State, names: seq<string>, which: Which)
    ensures Picked(Flush(s, names).out, which) == Picked(s.out, which) +
      (if which.Plain? || Wrote(s, which.kind) then [] else [Line(AddedAuto(which.kind, names), Auto(which.kind))])
  {
    hide Picked, AddedAuto;
    var u := AddedLine(s.wroteURLTest, UrlTest, names);
    var v := AddedLine(s.wroteSmart, Smart, names);
    PickedConcat(s.out, u + v, which);
    PickedConcat(u, v, which);
    PickedAdded(s.wroteURLTest, UrlTest, names, which);
    PickedAdded(s.wroteSmart, Smart, names, which);
    var p, a, b := Picked(s.out, which), Picked(u, which), Picked(v, which);
    match which
    case Plain =>
      assert a + b == [] && p + [] == p;
    case Automatic(kind) =>
      if kind.UrlTest? {
        assert a + b == u;
      } else {
        assert a + b == v;
      }
      assert p + [] == p;
  }

  lemma PickedAdded(wrote: bool, kind: Kind, names: seq<string>, which: Which)
    ensures Picked(AddedLine(wrote, kind, names), which) ==
      if !wrote && which == Automatic(kind) then AddedLine(wrote, kind, names) else []
  {
    hide Picked, AddedAuto;
    if wrote {
      PickedNone([], which);
    } else {
      PickedOne(Line(AddedAuto(kind, names), Auto(kind)), which);
    }
  }

  lemma AutoNamesDiffer(name: string)
    ensures !(EqualFold(name, URL_TEST) && EqualFold(name, SMART))
  {
    assert |Lower(URL_TEST)| == 14 && |Lower(SMART)| == 12;
  }

  lemma HeadingStep(s: State, lines: seq<string>, i: nat, names: seq<string>, url: string, which: Which)
    requires i < |lines| && s.section == SectionAt(lines, i)
    requires !IsManaged(lines[i]) && IsHeading(TrimSpace(lines[i]))
    ensures Picked(StepHeading(s, lines[i], names).out, which) ==
      Picked(s.out, which) + Adds(s, lines, i, names, url, which)
  {
    hide Picked, IsManaged, IsHeading, TrimSpace, InProxy, InGroups, AddedAuto, Flush, SectionAt;
    PickedFlush(s, names, which);
    var t := if s.section == "[Proxy Group]" && names != [] then Flush(s, names) else s;
    PickedEmit(t, lines[i], Heading, which);
  }

  lemma ProxyStep(s: State, lines: seq<string>, i: nat, maps: seq<Mapping>, url: string, which: Which)
    requires i < |lines| && s.section == SectionAt(lines, i) && InProxy(s.section)
    requires !IsManaged(lines[i]) && !IsHeading(TrimSpace(lines[i]))
    ensures Picked(StepProxy(s, lines[i], maps).out, which) ==
      Picked(s.out, which) + Adds(s, lines, i, NamesOf(maps), url, which)
  {
    hide Picked, IsManaged, IsHeading, TrimSpace, InProxy, InGroups, ProxyLines, Blank, DirectOrBlock, SectionAt;
    hide Stays;
    StaysIsKept(lines[i]);
    TwoSections(s.section);
    PickedEmit(s, lines[i], Body, which);
    var more := Gap(s.out) + ProxyLines(maps);
    PickedConcat(s.out, more, which);
    NothingPicked(Gap(s.out), maps, which);
  }

  lemma NothingPicked(gap: seq<Line>, maps: seq<Mapping>, which: Which)
    requires forall l :: l in gap ==> l == Line("", Filler)
    ensures Picked(gap + ProxyLines(maps), which) == []
  {
    var all := gap + ProxyLines(maps);
    forall i | 0 <= i < |all|
      ensures !Is(all[i], which)
    {
      if i < |gap| {
        assert all[i] == gap[i] && gap[i] in gap;
      }
    }
    PickedNone(all, which);
  }

  lemma GroupStep(s: State, lines: seq<string>, i: nat, names: seq<string>, url: string, which: Which)
    requires i < |lines| && s.section == SectionAt(lines, i) && InGroups(s.section)
    requires !IsManaged(lines[i]) && !IsHeading(TrimSpace(lines[i]))
    ensures Picked(StepGroup(s, lines[i], names).out, which) ==
      Picked(s.out, which) + Adds(s, lines, i, names, url, which)
  {
    hide Picked, IsManaged, IsHeading, TrimSpace, InProxy, InGroups, Blank, EqualFold, GroupName, ExpandOf, AutoOf;
    hide SectionAt;
    TwoSections(s.section);
    var line := lines[i];
    AutoNamesDiffer(GroupName(line));
    PickedEmit(s, line, Body, which);
    PickedEmit(s, AutoOf(line, names), Auto(UrlTest), which);
    PickedEmit(s, AutoOf(line, names), Auto(Smart), which);
    PickedEmit(s, ExpandOf(line, names), Expanded, which);
  }

  lemma StepPicks(s: State, lines: seq<string>, i: nat, maps: seq<Mapping>, url: string, which: Which)
    requires i < |lines| && s.section == SectionAt(lines, i)
    ensures Picked(StepLine(s, lines[i], maps, url).out, which) ==
      Picked(s.out, which) + Adds(s, lines, i, NamesOf(maps), url, which)
  {
    hide Picked, IsManaged, IsHeading, TrimSpace, InProxy, InGroups, StepProxy, StepGroup, StepHeading, SectionAt;
    hide ManagedLine, Blank, Kept;
    if IsManaged(lines[i]) {
      PickedEmit(s, ManagedLine(url), Managed, which);
    } else if IsHeading(TrimSpace(lines[i])) {
      HeadingStep(s, lines, i, NamesOf(maps), url, which);
    } else if InProxy(s.section) {
      ProxyStep(s, lines, i, maps, url, which);
    } else if InGroups(s.section) {
      GroupStep(s, lines, i, NamesOf(maps), url, which);
    } else {
      PickedEmit(s, lines[i], Body, which);
    }
  }

  lemma StepFlags(s: State, lines: seq<string>, i: nat, maps: seq<Mapping>, url: string)
    requires i < |lines| && s.section == SectionAt(lines, i)
    ensures var t := StepLine(s, lines[i], maps, url);
      && t.section == SectionAt(lines, i + 1)
      && (t.wroteProxy <==> s.wroteProxy || Remote(lines, i))
      && forall kind :: Wrote(t, kind) <==> Wrote(s, kind) || Brings(lines, i, kind, NamesOf(maps))
  {
    hide AutoOf, ExpandOf, MissingAuto, ProxyLines, IsHeading, HasPrefix, TrimSpace, EqualFold, Blank, GroupName;
    hide DirectOrBlock, ManagedLine, InProxy, InGroups, IsManaged, Stays;
    StaysIsKept(lines[i]);
    TwoSections(s.section);
    AutoNamesDiffer(GroupName(lines[i]));
  }

  // ---- what the template's lines bring ----

  ghost predicate SomeBrings(lines: seq<string>, n: nat, kind: Kind, names: seq<string>)
    requires n <= |lines|
  {
    exists i :: 0 <= i < n && Brings(lines, i, kind, names)
  }

  predicate SomeRemote(lines: seq<string>, n: nat)
    requires n <= |lines|
  {
    exists i :: 0 <= i < n && Remote(lines, i)
  }

  ghost predicate FirstBrings(lines: seq<string>, f: nat, kind: Kind, names: seq<string>)
    requires f < |lines|
  {
    Brings(lines, f, kind, names) && !SomeBrings(lines, f, kind, names)
  }

  /** The automatic group of the output is the one that the first line to bring it brings. */
  ghost predicate AutoFollows(s: State, lines: seq<string>, n: nat, kind: Kind, names: seq<string>)
    requires n <= |lines|
  {
    && (Wrote(s, kind) <==> SomeBrings(lines, n, kind, names))
    && (!Wrote(s, kind) ==> Picked(s.out, Automatic(kind)) == [])
    && forall f :: 0 <= f < n && FirstBrings(lines, f, kind, names) ==>
      Picked(s.out, Automatic(kind)) == [Line(BringText(lines[f], kind, names), Auto(kind))]
  }

  /** The state after the first `n` lines, told from the template. */
  ghost predicate Follows(s: State, lines: seq<string>, n: nat, names: seq<string>, url: string)
    requires n <= |lines|
  {
    && s.section == SectionAt(lines, n)
    && (s.wroteProxy <==> SomeRemote(lines, n))
    && Picked(s.out, Plain) == PlainUpTo(lines, n, names, url)
    && forall kind :: AutoFollows(s, lines, n, kind, names)
  }

  lemma SomeMore(lines: seq<string>, n: nat, kind: Kind, names: seq<string>)
    requires n < |lines|
    ensures SomeBrings(lines, n + 1, kind, names) <==>
      SomeBrings(lines, n, kind, names) || Brings(lines, n, kind, names)
    ensures SomeRemote(lines, n + 1) <==> SomeRemote(lines, n) || Remote(lines, n)
  {
    hide Brings, Remote;
  }

  lemma StepAuto(s: State, lines: seq<string>, n: nat, maps: seq<Mapping>, url: string, kind: Kind)
    requires n < |lines| && s.section == SectionAt(lines, n) && AutoFollows(s, lines, n, kind, NamesOf(maps))
    ensures AutoFollows(StepLine(s, lines[n], maps, url), lines, n + 1, kind, NamesOf(maps))
  {
    hide StepLine, Brings, Picked, SectionAt, BringText, SomeBrings, Wrote;
    var names := NamesOf(maps);
    StepFlags(s, lines, n, maps, url);
    StepPicks(s, lines, n, maps, url, Automatic(kind));
    SomeMore(lines, n, kind, names);
    var was := Picked(s.out, Automatic(kind));
    assert was + [] == was;
    forall f | 0 <= f < n + 1 && FirstBrings(lines, f, kind, names)
      ensures Picked(StepLine(s, lines[n], maps, url).out, Automatic(kind)) ==
        [Line(BringText(lines[f], kind, names), Auto(kind))]
    {
      if f < n {
        BringsBefore(lines, f, n, kind, names);
      }
    }
  }

  lemma BringsBefore(lines: seq<string>, f: nat, n: nat, kind: Kind, names: seq<string>)
    requires f < n <= |lines| && Brings(lines, f, kind, names)
    ensures SomeBrings(lines, n, kind, names)
  {
    hide Brings;
  }

  lemma StepFollows(s: State, lines: seq<string>, n: nat, maps: seq<Mapping>, url: string)
    requires n < |lines| && Follows(s, lines, n, NamesOf(maps), url)
    ensures Follows(StepLine(s, lines[n], maps, url), lines, n + 1, NamesOf(maps), url)
  {
    hide StepLine, Remote, Picked, SectionAt, PlainOf, AutoFollows, Wrote, SomeRemote;
    StepFlags(s, lines, n, maps, url);
    StepPicks(s, lines, n, maps, url, Plain);
    SomeMore(lines, n, UrlTest, NamesOf(maps));
    var t, m := StepLine(s, lines[n], maps, url), n + 1;
    forall kind: Kind
      ensures AutoFollows(t, lines, m, kind, NamesOf(maps))
    {
      StepAuto(s, lines, n, maps, url, kind);
    }
  }

  lemma {:induction false} LinesFollow(lines: seq<string>, n: nat, maps: seq<Mapping>, url: string)
    requires n <= |lines|
    ensures Follows(AfterLines(lines[..n], maps, url), lines, n, NamesOf(maps), url)
  {
    hide StepLine, Brings, Remote, FirstBrings;
    if n > 0 {
      assert lines[..n][..n - 1] == lines[..n - 1] && lines[..n][n - 1] == lines[n - 1];
      LinesFollow(lines, n - 1, maps, url);
      hide Follows;
      StepFollows(AfterLines(lines[..n - 1], maps, url), lines, n - 1, maps, url);
    }
  }

  // ---- the end of the profile ----

  /** No mapping line has been written: a proxy section is appended. */
  predicate Appends(lines: seq<string>, maps: seq<Mapping>) {
    maps != [] && !SomeRemote(lines, |lines|)
  }

  const PLAIN_SECTION := [Line(PROXY_HEADING, Heading), Line(DIRECT, Filler), Line(BLOCK, Filler)]

  /** The template's own lines, and behind them the section appended. */
  function PlainOfAll(lines: seq<string>, maps: seq<Mapping>, url: string): seq<Line> {
    PlainUpTo(lines, |lines|, NamesOf(maps), url) + (if Appends(lines, maps) then PLAIN_SECTION else [])
  }

  /** The header put in front of a profile that has none. */
  function HeaderOf(out: seq<Line>, url: string): seq<Line> {
    if IsManaged(JoinLines(Texts(out))) then [] else [Line(ManagedLine(url), Managed)]
  }

  ghost predicate AutoIs(out: seq<Line>, lines: seq<string>, kind: Kind, names: seq<string>) {
    var last := if InGroups(SectionAt(lines, |lines|)) && names != [] then [Line(AddedAuto(kind, names), Auto(kind))]
                else [];
    && (forall f :: 0 <= f < |lines| && FirstBrings(lines, f, kind, names) ==>
      Picked(out, Automatic(kind)) == [Line(BringText(lines[f], kind, names), Auto(kind))])
    && (!SomeBrings(lines, |lines|, kind, names) ==> Picked(out, Automatic(kind)) == last)
  }

  lemma FinishGroupsAuto(s: State, lines: seq<string>, maps: seq<Mapping>, url: string, kind: Kind)
    requires Follows(s, lines, |lines|, NamesOf(maps), url)
    ensures AutoIs(FinishGroups(s, maps).out, lines, kind, NamesOf(maps))
  {
    hide Picked, FirstBrings, AddedAuto, BringText, SectionAt, InGroups, Flush;
    var n, names := |lines|, NamesOf(maps);
    assert AutoFollows(s, lines, n, kind, names);
    PickedFlush(s, names, Automatic(kind));
    var t := FinishGroups(s, maps);
    forall f | 0 <= f < n && FirstBrings(lines, f, kind, names)
      ensures Picked(t.out, Automatic(kind)) == [Line(BringText(lines[f], kind, names), Auto(kind))]
    {
      FirstIsSome(lines, f, kind, names);
      assert Picked(s.out, Automatic(kind)) + [] == Picked(s.out, Automatic(kind));
    }
  }

  lemma FirstIsSome(lines: seq<string>, f: nat, kind: Kind, names: seq<string>)
    requires f < |lines| && FirstBrings(lines, f, kind, names)
    ensures SomeBrings(lines, |lines|, kind, names)
  {
    hide Brings;
  }

  lemma FinishGroupsPlain(s: State, maps: seq<Mapping>)
    ensures Picked(FinishGroups(s, maps).out, Plain) == Picked(s.out, Plain)
  {
    hide Picked, Flush;
    PickedFlush(s, NamesOf(maps), Plain);
    assert Picked(s.out, Plain) + [] == Picked(s.out, Plain);
  }

  lemma FinishProxyPicks(s: State, maps: seq<Mapping>, which: Which)
    ensures Picked(FinishProxy(s, maps).out, which) == Picked(s.out, which) +
      (if !s.wroteProxy && maps != [] && which.Plain? then PLAIN_SECTION else [])
  {
    hide Picked, ProxyLines;
    var p := Picked(s.out, which);
    assert p + [] == p;
    if !s.wroteProxy && maps != [] {
      PickedConcat(s.out + PROXY_SECTION, ProxyLines(maps), which);
      PickedConcat(s.out, PROXY_SECTION, which);
      NothingPicked([], maps, which);
      assert [] + ProxyLines(maps) == ProxyLines(maps);
      PickedSection(which);
    }
  }

  lemma PickedSection(which: Which)
    ensures Picked(PROXY_SECTION, which) == if which.Plain? then PLAIN_SECTION else []
  {
    hide Picked;
    assert PROXY_SECTION == [Line("", Filler)] + PLAIN_SECTION;
    PickedConcat([Line("", Filler)], PLAIN_SECTION, which);
    PickedOne(Line("", Filler), which);
    if which.Plain? {
      PickedEvery(PLAIN_SECTION, which);
    } else {
      PickedNone(PLAIN_SECTION, which);
    }
    assert [] + PLAIN_SECTION == PLAIN_SECTION;
  }

  lemma {:induction false} PickedEvery(out: seq<Line>, which: Which)
    requires forall l :: l in out ==> Is(l, which)
    ensures Picked(out, which) == out
  {
    hide Is;
    if out != [] {
      PickedEvery(out[..|out| - 1], which);
    }
  }

  lemma HeaderPicks(out: seq<Line>, url: string, which: Which)
    ensures Picked(WithHeader(out, url), which) ==
      (if which.Plain? then HeaderOf(out, url) else []) + Picked(out, which)
  {
    hide Picked, IsManaged, JoinLines, ManagedLine;
    var head, gap := Line(ManagedLine(url), Managed), Line("", Filler);
    PickedConcat([head] + [gap], out, which);
    PickedConcat([head], [gap], which);
    PickedOne(head, which);
    PickedOne(gap, which);
    assert [head] + [gap] == [head, gap];
    var p := Picked(out, which);
    assert [] + p == p && [head] + [] == [head];
  }

  /** The profile is the template's own lines, each as it is kept or expanded, in order; what else it holds are
      mapping lines, automatic groups and blank lines. */
  lemma PlainLines(lines: seq<string>, maps: seq<Mapping>, url: string)
    ensures Picked(Rewritten(lines, maps, url), Plain) ==
      HeaderOf(Unheaded(lines, maps, url), url) + PlainOfAll(lines, maps, url)
  {
    hide Picked, AfterLines, WithHeader, FinishProxy, FinishGroups, SomeRemote, PlainUpTo, HeaderOf;
    assert lines[..|lines|] == lines;
    LinesFollow(lines, |lines|, maps, url);
    var s := AfterLines(lines, maps, url);
    FinishGroupsPlain(s, maps);
    FinishProxyPicks(FinishGroups(s, maps), maps, Plain);
    FinishGroupsFlag(s, maps);
    HeaderPicks(Unheaded(lines, maps, url), url, Plain);
  }

  lemma FinishGroupsFlag(s: State, maps: seq<Mapping>)
    ensures FinishGroups(s, maps).wroteProxy == s.wroteProxy
  {
  }

  lemma AutomaticLines(lines: seq<string>, maps: seq<Mapping>, url: string, kind: Kind)
    ensures AutoIs(Rewritten(lines, maps, url), lines, kind, NamesOf(maps))
  {
    hide Picked, AfterLines, WithHeader, FinishProxy, FinishGroups, FirstBrings, SomeBrings, InGroups, BringText;
    hide AddedAuto, SectionAt, Follows, HeaderOf;
    assert lines[..|lines|] == lines;
    LinesFollow(lines, |lines|, maps, url);
    var s := AfterLines(lines, maps, url);
    var t := FinishGroups(s, maps);
    FinishGroupsAuto(s, lines, maps, url, kind);
    FinishProxyPicks(t, maps, Automatic(kind));
    HeaderPicks(Unheaded(lines, maps, url), url, Automatic(kind));
    var p := Picked(t.out, Automatic(kind));
    assert p + [] == p && [] + p == p;
  }

  // ---- the mapping lines ----

  lemma ManagedIsComment(url: string)
    ensures Blank(TrimSpace(ManagedLine(url))) && !IsHeading(TrimSpace(ManagedLine(url)))
  {
    var line := ManagedLine(url);
    var a, b := TrimShape(line);
    assert line[0] == '#';
    assert !IsSpace('#') && !IsSpace('e');
    assert line[|line| - 1] == 'e';
    assert a == 0 && b == |line|;
  }

  lemma FillersKept()
    ensures Kept("") && Kept(DIRECT) && Kept(BLOCK)
    ensures !IsHeading(TrimSpace("")) && !IsHeading(TrimSpace(DIRECT)) && !IsHeading(TrimSpace(BLOCK))
  {
    TrimTrimmed("");
    TrimTrimmed(DIRECT);
    TrimTrimmed(BLOCK);
    assert Lower(DIRECT)[..7] == "direct " && Lower(BLOCK)[..6] == "block ";
  }

  /** A line other than a heading stands in a proxy section. */
  predicate ProxyLine(out: seq<Line>, i: nat) {
    i < |out| && !Head(out[i]) && InProxy(SectionAbove(out, i))
  }

  /** For every template and every list of mappings: the mappings' lines stand in a proxy section of the output,
      all of them, once and in order, and every other line of a proxy section is blank, a comment, or begins
      with "direct ", "direct=", "block " or "block=" in any case. */
  lemma EachMappingOnce(lines: seq<string>, maps: seq<Mapping>, url: string) returns (p: nat)
    ensures var out := Rewritten(lines, maps, url);
      && p + |maps| <= |out|
      && (forall i: nat :: p <= i < p + |maps| ==> ProxyLine(out, i) && out[i].text == maps[i - p].socks)
      && forall i: nat :: ProxyLine(out, i) && !(p <= i < p + |maps|) ==>
        var text := TrimSpace(out[i].text);
        var low := Lower(text);
        || text == "" || text[0] == '#'
        || "direct " <= low || "direct=" <= low || "block " <= low || "block=" <= low
  {
    hide Rewritten, InProxy, InGroups, SectionAbove, Sourced, Placed, Kept, Lower, TrimSpace;
    var out := Rewritten(lines, maps, url);
    RewrittenGood(lines, maps, url);
    p :| BlockAt(out, p, maps);
    forall i: nat | p <= i < p + |maps|
      ensures ProxyLine(out, i) && out[i].text == maps[i - p].socks
    {
      assert out[p + (i - p)].from == Proxy(i - p) && out[i] in out;
      MappingLine(out[i], SectionAbove(out, i), lines, maps, url);
    }
    forall i: nat | ProxyLine(out, i) && !(p <= i < p + |maps|)
      ensures Stays(out[i].text)
    {
      StaysIsKept(out[i].text);
      OtherLine(out[i], SectionAbove(out, i), lines, maps, url);
    }
  }

  lemma MappingLine(l: Line, section: string, lines: seq<string>, maps: seq<Mapping>, url: string)
    requires Sourced(l, lines, maps, url) && Placed(l, section) && l.from.Proxy?
    ensures InProxy(section) && l.from.k < |maps| && l.text == maps[l.from.k].socks
  {
  }

  lemma OtherLine(l: Line, section: string, lines: seq<string>, maps: seq<Mapping>, url: string)
    requires Sourced(l, lines, maps, url) && Placed(l, section) && InProxy(section) && !Head(l) && !l.from.Proxy?
    ensures Kept(l.text)
  {
    hide InProxy, InGroups, ManagedLine, IsManaged, Blank, DirectOrBlock;
    TwoSections(section);
    ManagedIsComment(url);
    FillersKept();
  }

  // ---- where the mapping lines stand ----

  ghost predicate FirstRemote(lines: seq<string>, f: nat)
    requires f < |lines|
  {
    Remote(lines, f) && !SomeRemote(lines, f)
  }

  /** The mapping lines stand at `p`, and what of the template stands before them are its first `f` lines. */
  ghost predicate StandsAt(out: seq<Line>, p: nat, maps: seq<Mapping>, before: seq<Line>) {
    && p + |maps| <= |out|
    && out[p..p + |maps|] == ProxyLines(maps) && Picked(out[..p], Plain) == before
  }

  ghost predicate Stands(out: seq<Line>, maps: seq<Mapping>, before: seq<Line>) {
    exists p: nat :: StandsAt(out, p, maps, before)
  }

  /** What is appended does not move them. */
  lemma StandsStill(out: seq<Line>, more: seq<Line>, maps: seq<Mapping>, before: seq<Line>)
    requires Stands(out, maps, before)
    ensures Stands(out + more, maps, before)
  {
    hide Picked, ProxyLines;
    var p: nat :| StandsAt(out, p, maps, before);
    var all := out + more;
    assert all[p..p + |maps|] == out[p..p + |maps|] && all[..p] == out[..p];
    assert StandsAt(all, p, maps, before);
  }

  lemma StepAppends(s: State, line: string, maps: seq<Mapping>, url: string)
    ensures s.out <= StepLine(s, line, maps, url).out
  {
    hide IsManaged, IsHeading, TrimSpace, InProxy, InGroups, ManagedLine, Blank, DirectOrBlock, GroupName, EqualFold;
    hide AutoOf, ExpandOf, MissingAuto, ProxyLines;
  }

  /** The first remote line puts them there. */
  lemma FirstStands(s: State, lines: seq<string>, f: nat, maps: seq<Mapping>, url: string)
    requires f < |lines| && Remote(lines, f) && s.section == SectionAt(lines, f) && !s.wroteProxy
    ensures Stands(StepLine(s, lines[f], maps, url).out, maps, Picked(s.out, Plain))
  {
    hide IsManaged, IsHeading, TrimSpace, InProxy, SectionAt, Picked, Stays, Blank, DirectOrBlock, Gap, ProxyLines;
    StaysIsKept(lines[f]);
    var gap := Gap(s.out);
    var t := StepLine(s, lines[f], maps, url);
    assert t.out == s.out + (gap + ProxyLines(maps));
    PickedConcat(s.out, gap, Plain);
    GapIsBlank(s.out);
    PickedNone(gap, Plain);
    var p := |s.out + gap|;
    assert t.out[..p] == s.out + gap && t.out[p..p + |maps|] == ProxyLines(maps);
    assert Picked(s.out, Plain) + [] == Picked(s.out, Plain);
    assert StandsAt(t.out, p, maps, Picked(s.out, Plain));
  }

  lemma GapIsBlank(out: seq<Line>)
    ensures forall i :: 0 <= i < |Gap(out)| ==> !Is(Gap(out)[i], Plain)
  {
    hide TrimSpace;
  }

  lemma {:induction false} LinesStand(lines: seq<string>, n: nat, maps: seq<Mapping>, url: string, f: nat)
    requires f < n <= |lines| && FirstRemote(lines, f)
    ensures Stands(AfterLines(lines[..n], maps, url).out, maps, PlainUpTo(lines, f, NamesOf(maps), url))
    decreases n
  {
    hide StepLine, Remote, Stands, PlainUpTo, SectionAt, Picked;
    assert lines[..n][..n - 1] == lines[..n - 1] && lines[..n][n - 1] == lines[n - 1];
    var s := AfterLines(lines[..n - 1], maps, url);
    LinesFollow(lines, n - 1, maps, url);
    if f == n - 1 {
      FirstStands(s, lines, f, maps, url);
    } else {
      LinesStand(lines, n - 1, maps, url, f);
      StepAppends(s, lines[n - 1], maps, url);
      var t := StepLine(s, lines[n - 1], maps, url);
      StandsStill(s.out, t.out[|s.out|..], maps, PlainUpTo(lines, f, NamesOf(maps), url));
      assert s.out + t.out[|s.out|..] == t.out;
    }
  }

  lemma FinishAppends(s: State, maps: seq<Mapping>)
    ensures s.out <= FinishProxy(FinishGroups(s, maps), maps).out
  {
    hide InGroups, MissingAuto, ProxyLines;
  }

  lemma HeaderStands(out: seq<Line>, maps: seq<Mapping>, url: string, before: seq<Line>)
    requires Stands(out, maps, before)
    ensures Stands(WithHeader(out, url), maps, HeaderOf(out, url) + before)
  {
    hide Picked, ProxyLines, IsManaged, JoinLines, ManagedLine;
    var p: nat :| StandsAt(out, p, maps, before);
    if IsManaged(JoinLines(Texts(out))) {
      assert [] + before == before;
    } else {
      var pre := [Line(ManagedLine(url), Managed), Line("", Filler)];
      var all := pre + out;
      var q := 2 + p;
      assert all[q..q + |maps|] == out[p..p + |maps|] && all[..q] == pre + out[..p];
      PickedConcat(pre, out[..p], Plain);
      PickedHeader(url);
      assert StandsAt(all, q, maps, HeaderOf(out, url) + before);
    }
  }

  lemma PickedHeader(url: string)
    ensures Picked([Line(ManagedLine(url), Managed), Line("", Filler)], Plain) == [Line(ManagedLine(url), Managed)]
  {
    hide Picked, ManagedLine;
    var head, gap := Line(ManagedLine(url), Managed), Line("", Filler);
    assert [head, gap] == [head] + [gap];
    PickedConcat([head], [gap], Plain);
    PickedOne(head, Plain);
    PickedOne(gap, Plain);
    assert [head] + [] == [head];
  }

  /** When a proxy section of the template holds a line that does not stay, the mapping lines stand where the first
      such line stood: before them is what is kept of the template up to it and nothing else but blank lines and
      automatic groups. */
  lemma MappingsReplaceRemotes(lines: seq<string>, maps: seq<Mapping>, url: string, f: nat) returns (p: nat)
    requires f < |lines| && Remote(lines, f) && forall i :: 0 <= i < f ==> !Remote(lines, i)
    ensures var out := Rewritten(lines, maps, url);
      && p + |maps| <= |out| && out[p..p + |maps|] == ProxyLines(maps)
      && Picked(out[..p], Plain) ==
        HeaderOf(Unheaded(lines, maps, url), url) + PlainUpTo(lines, f, NamesOf(maps), url)
    ensures !Appends(lines, maps)
  {
    hide PlainUpTo, HeaderOf, WithHeader, Remote, AfterLines, FinishProxy, FinishGroups, Picked, ProxyLines;
    assert FirstRemote(lines, f);
    assert lines[..|lines|] == lines;
    LinesStand(lines, |lines|, maps, url, f);
    var s := AfterLines(lines, maps, url);
    var before := PlainUpTo(lines, f, NamesOf(maps), url);
    FinishAppends(s, maps);
    var out := Unheaded(lines, maps, url);
    StandsStill(s.out, out[|s.out|..], maps, before);
    assert s.out + out[|s.out|..] == out;
    HeaderStands(out, maps, url, before);
    p :| StandsAt(Rewritten(lines, maps, url), p, maps, HeaderOf(out, url) + before);
  }

  // ---- the automatic groups ----

  /** A client reads an automatic group here. */
  predicate AutoLine(out: seq<Line>, i: nat, kind: Kind) {
    && i < |out| && !Head(out[i]) && InGroups(SectionAbove(out, i))
    && !Blank(TrimSpace(out[i].text)) && EqualFold(GroupName(out[i].text), AutoName(kind))
  }

  /** There is one automatic group of the kind, and this is its line. */
  ghost predicate OnlyAuto(out: seq<Line>, kind: Kind, text: string) {
    exists p: nat :: AutoLine(out, p, kind) && out[p].text == text && forall i: nat :: AutoLine(out, i, kind) ==> i == p
  }

  ghost predicate NoAuto(out: seq<Line>, kind: Kind) {
    forall i: nat :: !AutoLine(out, i, kind)
  }

  lemma AutoNames()
    ensures IsName(URL_TEST) && IsName(SMART)
  {
    TrimTrimmed(URL_TEST);
    TrimTrimmed(SMART);
  }

  lemma NameOfAdded(kind: Kind, names: seq<string>)
    ensures GroupName(AddedAuto(kind, names)) == AutoName(kind)
    ensures EqualFold(GroupName(AddedAuto(kind, names)), AutoName(kind))
  {
    hide JoinComma, IsName;
    AutoNames();
    var rest := (if kind.UrlTest? then "url-test, " else "smart, ") + JoinComma(names);
    assert AddedAuto(kind, names) == AutoName(kind) + " = " + rest;
    GroupSplits(AutoName(kind), rest);
  }

  /** Rewriting or expanding a group line keeps its name. */
  lemma NameStays(line: string, names: seq<string>)
    ensures GroupName(AutoOf(line, names)) == GroupName(line) == GroupName(ExpandOf(line, names))
  {
    hide CSV, TrimSpace, AutoMembers, ExpandMembers, GroupText, IsAuto;
    NameOfLine(line);
    if SplitGroupLine(line).Group? {
      var parts := CSV(SplitGroupLine(line).rest);
      GroupReads(GroupName(line), AutoMembers(parts, names));
      GroupReads(GroupName(line), ExpandMembers(parts, names));
    }
  }

  /** A line begins with the name of its group. */
  lemma NameFirst(text: string)
    requires GroupName(text) != ""
    ensures TrimSpace(text) != "" && TrimSpace(text)[0] == GroupName(text)[0]
  {
    var head := text[..CutAt(text, '=')];
    var a, b := TrimShape(head);
    var c, d := TrimShape(text);
    assert !IsSpace(head[a]) by {
      assert head[a] == head[a..b][0];
    }
    assert text[a] == head[a];
    assert c <= a;
    assert text[c] == text[c..d][0];
    assert forall i :: 0 <= i < a ==> text[i] == head[i];
  }

  /** The line of an automatic group is neither blank, nor a comment, nor a heading. */
  lemma AutoShows(text: string, kind: Kind)
    requires EqualFold(GroupName(text), AutoName(kind))
    ensures !Blank(TrimSpace(text)) && !IsHeading(TrimSpace(text))
  {
    hide TrimSpace, GroupName;
    var name := GroupName(text);
    assert |name| == |AutoName(kind)|;
    assert LowerChar(name[0]) == Lower(name)[0] == Lower(AutoName(kind))[0] == 'a';
    NameFirst(text);
  }

  /** Of the lines of a group section, exactly those labelled so read as automatic groups. */
  lemma AutoByText(l: Line, section: string, lines: seq<string>, maps: seq<Mapping>, url: string, kind: Kind)
    requires Sourced(l, lines, maps, url) && Placed(l, section) && InGroups(section) && !Head(l)
    ensures l.from == Auto(kind) <==> !Blank(TrimSpace(l.text)) && EqualFold(GroupName(l.text), AutoName(kind))
  {
    hide InProxy, InGroups, ManagedLine, IsManaged, Blank, DirectOrBlock, TrimSpace, GroupName, EqualFold;
    hide AutoOf, ExpandOf, AddedAuto, IsHeading;
    TwoSections(section);
    var names := NamesOf(maps);
    AutoNamesDiffer(GroupName(l.text));
    match l.from
    case Managed => ManagedIsComment(url);
    case Heading =>
    case Body =>
    case Expanded =>
      var line :| line in lines && ExpandedFrom(l.text, line, names);
      NameStays(line, names);
    case Auto(k) =>
      if l.text == AddedAuto(k, names) {
        NameOfAdded(k, names);
      } else {
        var line :| line in lines && AutoFrom(l.text, line, k, names);
        NameStays(line, names);
      }
      AutoShows(l.text, k);
    case Proxy(_) =>
    case Filler => FillersBlank();
  }

  lemma FillersBlank()
    ensures Blank(TrimSpace(""))
  {
    TrimTrimmed("");
  }

  lemma {:induction false} PickedUnique(out: seq<Line>, which: Which, l: Line) returns (p: nat)
    requires Picked(out, which) == [l]
    ensures p < |out| && out[p] == l && forall i :: 0 <= i < |out| ==> (Is(out[i], which) <==> i == p)
  {
    hide Is;
    var n := |out| - 1;
    PickedIn(out[..n], which);
    assert forall i :: 0 <= i < n ==> out[i] == out[..n][i];
    if Is(out[n], which) {
      var was := Picked(out[..n], which);
      assert (was + [out[n]])[|was|] == out[n] && was == [];
      p := n;
    } else {
      assert Picked(out[..n], which) + [] == Picked(out[..n], which);
      p := PickedUnique(out[..n], which, l);
    }
  }

  lemma AutoLineOf(lines: seq<string>, maps: seq<Mapping>, url: string, i: nat, kind: Kind)
    requires i < |Rewritten(lines, maps, url)|
    ensures var out := Rewritten(lines, maps, url); AutoLine(out, i, kind) <==> Is(out[i], Automatic(kind))
  {
    hide Rewritten, InProxy, InGroups, SectionAbove, Sourced, Placed, Blank, GroupName, EqualFold, TrimSpace;
    var out := Rewritten(lines, maps, url);
    RewrittenGood(lines, maps, url);
    assert out[i] in out;
    if InGroups(SectionAbove(out, i)) && !Head(out[i]) {
      AutoByText(out[i], SectionAbove(out, i), lines, maps, url, kind);
    } else if out[i].from == Auto(kind) {
      AutoInGroups(out[i], SectionAbove(out, i), kind);
    }
  }

  lemma AutoInGroups(l: Line, section: string, kind: Kind)
    requires Placed(l, section) && l.from == Auto(kind)
    ensures InGroups(section)
  {
  }

  lemma PickedAuto(lines: seq<string>, maps: seq<Mapping>, url: string, kind: Kind, text: string)
    requires Picked(Rewritten(lines, maps, url), Automatic(kind)) == [Line(text, Auto(kind))]
    ensures OnlyAuto(Rewritten(lines, maps, url), kind, text)
  {
    hide Rewritten, Picked, AutoLine;
    var out := Rewritten(lines, maps, url);
    var p := PickedUnique(out, Automatic(kind), Line(text, Auto(kind)));
    forall i: nat | i < |out|
      ensures AutoLine(out, i, kind) <==> i == p
    {
      AutoLineOf(lines, maps, url, i, kind);
    }
    assert forall i: nat :: AutoLine(out, i, kind) ==> i < |out| by {
      InRange(out, kind);
    }
  }

  lemma InRange(out: seq<Line>, kind: Kind)
    ensures forall i: nat :: AutoLine(out, i, kind) ==> i < |out|
  {
  }

  lemma PickedNoAuto(lines: seq<string>, maps: seq<Mapping>, url: string, kind: Kind)
    requires Picked(Rewritten(lines, maps, url), Automatic(kind)) == []
    ensures NoAuto(Rewritten(lines, maps, url), kind)
  {
    hide Rewritten, Picked, AutoLine;
    var out := Rewritten(lines, maps, url);
    PickedIn(out, Automatic(kind));
    InRange(out, kind);
    forall i: nat | i < |out|
      ensures !AutoLine(out, i, kind)
    {
      assert out[i] in out;
      AutoLineOf(lines, maps, url, i, kind);
    }
  }

  /** A client reads exactly one automatic group of each kind when some line of the template brings it, the one
      that the first such line brings; one with every mapping when none does and the template ends in a group
      section; and none otherwise. */
  lemma AutoGroupExactly(lines: seq<string>, maps: seq<Mapping>, url: string, kind: Kind)
    ensures var out, names := Rewritten(lines, maps, url), NamesOf(maps);
      && (forall f :: 0 <= f < |lines| && FirstBrings(lines, f, kind, names) ==>
        OnlyAuto(out, kind, BringText(lines[f], kind, names)))
      && (!SomeBrings(lines, |lines|, kind, names) ==>
        if InGroups(SectionAt(lines, |lines|)) && maps != [] then OnlyAuto(out, kind, AddedAuto(kind, names))
        else NoAuto(out, kind))
  {
    hide Rewritten, Picked, FirstBrings, SomeBrings, InGroups, SectionAt, BringText, AddedAuto, OnlyAuto, NoAuto;
    var out, names := Rewritten(lines, maps, url), NamesOf(maps);
    AutomaticLines(lines, maps, url, kind);
    forall f | 0 <= f < |lines| && FirstBrings(lines, f, kind, names)
      ensures OnlyAuto(out, kind, BringText(lines[f], kind, names))
    {
      PickedAuto(lines, maps, url, kind, BringText(lines[f], kind, names));
    }
    if !SomeBrings(lines, |lines|, kind, names) {
      if InGroups(SectionAt(lines, |lines|)) && maps != [] {
        PickedAuto(lines, maps, url, kind, AddedAuto(kind, names));
      } else {
        PickedNoAuto(lines, maps, url, kind);
      }
    }
  }

  /** If some line brings the group, one is the first to. */
  lemma {:induction false} SomeFirst(lines: seq<string>, n: nat, kind: Kind, names: seq<string>) returns (f: nat)
    requires n <= |lines| && SomeBrings(lines, n, kind, names)
    ensures f < n && FirstBrings(lines, f, kind, names)
  {
    hide Brings;
    f :| f < n && Brings(lines, f, kind, names);
    if SomeBrings(lines, f, kind, names) {
      f := SomeFirst(lines, f, kind, names);
    }
  }

  lemma {:induction false} HeadingBrings(lines: seq<string>, n: nat, kind: Kind, names: seq<string>)
    requires n <= |lines| && SectionAt(lines, n) == "[Proxy Group]" && names != []
    ensures SomeBrings(lines, |lines|, kind, names) || InGroups(SectionAt(lines, |lines|))
    decreases |lines| - n
  {
    hide TrimSpace, HasPrefix, IsHeading, Blank, GroupName;
    if n < |lines| {
      if !IsManaged(lines[n]) && IsHeading(TrimSpace(lines[n])) {
        assert Brings(lines, n, kind, names);
      } else {
        HeadingBrings(lines, n + 1, kind, names);
      }
    }
  }

  /** In particular there is exactly one whenever a heading is spelled "[Proxy Group]". */
  lemma SpelledExactly(lines: seq<string>, maps: seq<Mapping>, url: string, kind: Kind, n: nat)
    requires maps != [] && 0 < n <= |lines| && SectionAt(lines, n) == "[Proxy Group]"
    ensures exists text :: OnlyAuto(Rewritten(lines, maps, url), kind, text)
  {
    hide Rewritten, OnlyAuto, FirstBrings, SectionAt, InGroups, SomeBrings;
    var names := NamesOf(maps);
    HeadingBrings(lines, n, kind, names);
    AutoGroupExactly(lines, maps, url, kind);
    if SomeBrings(lines, |lines|, kind, names) {
      var f := SomeFirst(lines, |lines|, kind, names);
    }
  }

  /** A witness: to a group section spelled otherwise, closed by another heading, none is added. */
  lemma OtherSpellingMisses(maps: seq<Mapping>, url: string, kind: Kind)
    ensures NoAuto(Rewritten(["[proxy group]", "[Rule]"], maps, url), kind)
  {
    hide Rewritten, NoAuto;
    var lines := ["[proxy group]", "[Rule]"];
    assert TrimSpace(lines[0]) == lines[0] && TrimSpace(lines[1]) == lines[1];
    assert !IsManaged(lines[0]) && !IsManaged(lines[1]);
    assert IsHeading(lines[0]) && IsHeading(lines[1]);
    assert SectionAt(lines, 0) == "" && SectionAt(lines, 1) == lines[0] && SectionAt(lines, 2) == lines[1];
    assert !Brings(lines, 0, kind, NamesOf(maps)) && !Brings(lines, 1, kind, NamesOf(maps));
    assert |Lower("[Rule]")| == 6 && |Lower("[Proxy Group]")| == 13;
    assert !InGroups(SectionAt(lines, 2));
    AutoGroupExactly(lines, maps, url, kind);
  }

  // ---- headings by their text ----

  /** Line `i` is written as an expanded group. */
  predicate Expands(lines: seq<string>, i: nat)
    requires i < |lines|
  {
    && !IsManaged(lines[i]) && !IsHeading(TrimSpace(lines[i])) && InGroups(SectionAt(lines, i))
    && !Blank(TrimSpace(lines[i])) && !IsAuto(GroupName(lines[i]))
  }

  /** An added line has the looks of a heading: a mapping's, or an expanded group's. */
  ghost predicate Misleads(lines: seq<string>, maps: seq<Mapping>) {
    || (exists k :: 0 <= k < |maps| && IsHeading(TrimSpace(maps[k].socks)))
    || exists i :: 0 <= i < |lines| && Expands(lines, i) && IsHeading(TrimSpace(ExpandOf(lines[i], NamesOf(maps))))
  }

  lemma {:induction false} PlainHas(lines: seq<string>, n: nat, names: seq<string>, url: string, l: Line)
    requires n <= |lines|
    ensures l in PlainUpTo(lines, n, names, url) <==>
      exists i :: 0 <= i < n && l in PlainOf(lines[i], SectionAt(lines, i), names, url)
  {
    hide PlainOf, SectionAt;
    if n > 0 {
      PlainHas(lines, n - 1, names, url, l);
    }
  }

  lemma ExpandedHere(lines: seq<string>, i: nat, names: seq<string>, url: string, text: string)
    requires i < |lines|
    ensures Line(text, Expanded) in PlainOf(lines[i], SectionAt(lines, i), names, url) <==>
      Expands(lines, i) && text == ExpandOf(lines[i], names)
  {
    hide IsManaged, IsHeading, InGroups, InProxy, Kept, Blank, IsAuto, TrimSpace, ExpandOf, SectionAt, GroupName;
    TwoSections(SectionAt(lines, i));
  }

  /** The expanded lines of the output are those of the template's group lines. */
  lemma ExpandedLines(lines: seq<string>, maps: seq<Mapping>, url: string, text: string)
    ensures Line(text, Expanded) in Rewritten(lines, maps, url) <==>
      exists i :: 0 <= i < |lines| && Expands(lines, i) && text == ExpandOf(lines[i], NamesOf(maps))
  {
    hide Rewritten, Picked, PlainUpTo, PlainOf, Expands, ExpandOf, Unheaded, HeaderOf, Appends;
    var out, l, names := Rewritten(lines, maps, url), Line(text, Expanded), NamesOf(maps);
    PlainLines(lines, maps, url);
    PickedIn(out, Plain);
    PlainHas(lines, |lines|, names, url, l);
    HeaderHas(Unheaded(lines, maps, url), url, text);
    assert l in out <==> l in PlainUpTo(lines, |lines|, names, url);
    forall i | 0 <= i < |lines|
      ensures l in PlainOf(lines[i], SectionAt(lines, i), names, url) <==>
        Expands(lines, i) && text == ExpandOf(lines[i], names)
    {
      ExpandedHere(lines, i, names, url, text);
    }
  }

  lemma HeaderHas(out: seq<Line>, url: string, text: string)
    ensures Line(text, Expanded) !in HeaderOf(out, url) && Line(text, Expanded) !in PLAIN_SECTION
  {
  }

  /** The line of an expanded group or a mapping aside, a line looks like a heading exactly when it is one. */
  lemma LooksRight(l: Line, lines: seq<string>, maps: seq<Mapping>, url: string)
    requires Sourced(l, lines, maps, url) && !l.from.Proxy? && !l.from.Expanded?
    ensures Head(l) <==> IsHeading(TrimSpace(l.text))
  {
    hide ManagedLine, IsManaged, TrimSpace, GroupName, EqualFold, AutoOf, AddedAuto, IsHeading;
    match l.from
    case Managed => ManagedIsComment(url);
    case Heading => HeadingTrims(); ProxyIsHeading();
    case Body =>
    case Auto(kind) =>
      var names := NamesOf(maps);
      if l.text == AddedAuto(kind, names) {
        NameOfAdded(kind, names);
      } else {
        var line :| line in lines && AutoFrom(l.text, line, kind, names);
        NameStays(line, names);
      }
      AutoShows(l.text, kind);
    case Filler => FillersKept();
  }

  lemma ProxyIsHeading()
    ensures IsHeading(PROXY_HEADING)
  {
  }

  /** The added lines of the output that a text could pass off as headings. */
  lemma MisleadingLines(lines: seq<string>, maps: seq<Mapping>, url: string)
    ensures Misleads(lines, maps) <==> exists l ::
      l in Rewritten(lines, maps, url) && (l.from.Proxy? || l.from.Expanded?) && IsHeading(TrimSpace(l.text))
  {
    hide Rewritten, Sourced, IsHeading, TrimSpace, Expands, ExpandOf, ProxyLine, Kept, AllPlaced;
    var out, names := Rewritten(lines, maps, url), NamesOf(maps);
    RewrittenGood(lines, maps, url);
    if Misleads(lines, maps) {
      if k :| 0 <= k < |maps| && IsHeading(TrimSpace(maps[k].socks)) {
        var p: nat :| BlockAt(out, p, maps);
        assert out[p + k].from == Proxy(k) && out[p + k] in out;
        ProxyText(out[p + k], lines, maps, url);
      } else {
        var i :| 0 <= i < |lines| && Expands(lines, i) && IsHeading(TrimSpace(ExpandOf(lines[i], names)));
        ExpandedLines(lines, maps, url, ExpandOf(lines[i], names));
      }
    }
    forall l | l in out && (l.from.Proxy? || l.from.Expanded?) && IsHeading(TrimSpace(l.text))
      ensures Misleads(lines, maps)
    {
      if l.from.Proxy? {
        ProxyText(l, lines, maps, url);
      } else {
        assert l == Line(l.text, Expanded);
        ExpandedLines(lines, maps, url, l.text);
      }
    }
  }

  /** A client that tells headings by their text sees the sections told here if and only if no mapping line and no
      expanded group looks like a heading. */
  lemma HeadingsByText(lines: seq<string>, maps: seq<Mapping>, url: string)
    ensures (forall l :: l in Rewritten(lines, maps, url) ==> (Head(l) <==> IsHeading(TrimSpace(l.text)))) <==>
      !Misleads(lines, maps)
  {
    hide Rewritten, Sourced, IsHeading, TrimSpace, Misleads, ProxyPart, AllPlaced;
    var out := Rewritten(lines, maps, url);
    RewrittenGood(lines, maps, url);
    MisleadingLines(lines, maps, url);
    forall l | l in out && !l.from.Proxy? && !l.from.Expanded?
      ensures Head(l) <==> IsHeading(TrimSpace(l.text))
    {
      LooksRight(l, lines, maps, url);
    }
  }

  /** A witness: an expanded line can look like a heading, by the last name it is given. */
  lemma ExpandedMisleads()
    ensures !IsHeading(TrimSpace("[x = select")) && IsHeading(TrimSpace(ExpandOf("[x = select", ["b]"])))
  {
    hide TrimSpace, CSV, SplitGroupLine, ExpandMembers, GroupText, IsHeading;
    SelectLine();
    SelectReads();
    OneWord();
    assert !IsAuto("[x") by {
      assert |Lower("[x")| == 2 && |Lower(URL_TEST)| == 14 && |Lower(SMART)| == 12;
    }
    LooksLike();
  }

  lemma SelectReads()
    ensures SplitGroupLine("[x = select") == Group("[x", "select")
  {
    hide TrimSpace, SplitGroupLine;
    TrimTrimmed("[x");
    TrimTrimmed("select");
    assert "[x = select" == "[x" + " = " + "select";
    GroupSplits("[x", "select");
  }

  lemma LooksLike()
    ensures !IsHeading(TrimSpace("[x = select")) && IsHeading(TrimSpace("[x = select, b]"))
  {
    hide TrimSpace;
    TrimTrimmed("[x = select");
    TrimTrimmed("[x = select, b]");
  }

  lemma OneWord()
    ensures CSV("select") == ["select"]
  {
    hide CSV, TrimSpace;
    SplitJoin(["select"]);
    assert FirstComma("select", false, false) == 6;
    TrimTrimmed("select");
  }

  lemma SelectLine()
    ensures GroupText("[x", ExpandMembers(["select"], ["b]"])) == "[x = select, b]"
  {
    hide HasBlock;
    var kept := ["select"] + Replaced(["select"][1..]);
    assert ["select"][1..] == [] && kept == ["select"];
    assert !HasBlock([]) by {
      NoBlock();
    }
    assert Lower("select") == "select";
    assert "b]" !in kept && ["b]"][1..] == [];
    assert Missing(kept, ["b]"]) == ["b]"];
    assert ["select", "b]"][1..] == ["b]"];
    assert JoinComma(["select", "b]"]) == "select, b]";
  }

  lemma NoBlock()
    ensures !HasBlock([])
  {
  }

  lemma ProxyText(l: Line, lines: seq<string>, maps: seq<Mapping>, url: string)
    requires Sourced(l, lines, maps, url) && l.from.Proxy?
    ensures l.from.k < |maps| && l.text == maps[l.from.k].socks
  {
  }

  /** Every profile begins with its managed header. */
  lemma HeaderFirst(lines: seq<string>, maps: seq<Mapping>, url: string)
    ensures IsManaged(JoinLines(Texts(Rewritten(lines, maps, url))))
  {
    hide Unheaded;
    var out := Unheaded(lines, maps, url);
    if !IsManaged(JoinLines(Texts(out))) {
      var all := WithHeader(out, url);
      assert Texts(all)[0] == ManagedLine(url);
      var text := JoinLines(Texts(all));
      assert ManagedLine(url) <= text && MANAGED_PREFIX <= text;
      var a, b := TrimShape(text);
      assert text[0] == '#' && text[15] == 'G';
      assert a == 0 && b >= 16;
    }
  }
}
