/** What a rewritten Surge profile contains, section by section. */
module SurgeOutput {
  import opened Bytes
  import opened Text
  import opened SurgeGroups
  import opened SurgeRewrite

  // ---- sections of the output ----

  predicate Head(l: Line) {
    l.from.Heading?
  }

  /** The section line `i` stands in: the last heading above it. */
  function SectionAbove(out: seq<Line>, i: nat): string
    requires i <= |out|
  {
    if i == 0 then "" else if Head(out[i - 1]) then TrimSpace(out[i - 1].text) else SectionAbove(out, i - 1)
  }

  lemma {:induction false} SectionPrefix(a: seq<Line>, b: seq<Line>, i: nat)
    requires i <= |a|
    ensures SectionAbove(a + b, i) == SectionAbove(a, i)
  {
    if i > 0 {
      SectionPrefix(a, b, i - 1);
    }
  }

  lemma {:induction false} SectionLasts(a: seq<Line>, b: seq<Line>, j: nat)
    requires j <= |b| && forall k :: 0 <= k < |b| ==> !Head(b[k])
    ensures SectionAbove(a + b, |a| + j) == SectionAbove(a, |a|)
  {
    if j == 0 {
      SectionPrefix(a, b, |a|);
    } else {
      assert (a + b)[|a| + j - 1] == b[j - 1];
      SectionLasts(a, b, j - 1);
    }
  }

  // ---- where each line comes from ----

  /** The text of a line is what its origin says. */
  predicate Sourced(l: Line, lines: seq<string>, maps: seq<Mapping>, url: string) {
    match l.from
    case Managed => l.text == ManagedLine(url)
    case Heading => (l.text in lines && IsHeading(TrimSpace(l.text))) || l.text == PROXY_HEADING
    case Body => l.text in lines && !IsHeading(TrimSpace(l.text)) && !IsManaged(l.text)
    case Expanded => exists line :: line in lines && ExpandedFrom(l.text, line, NamesOf(maps))
    case Auto(kind) =>
      || l.text == AddedAuto(kind, NamesOf(maps))
      || exists line :: line in lines && AutoFrom(l.text, line, kind, NamesOf(maps))
    case Proxy(k) => k < |maps| && l.text == maps[k].socks
    case Filler => l.text in {"", DIRECT, BLOCK}
  }

  predicate ExpandedFrom(text: string, line: string, names: seq<string>) {
    text == ExpandOf(line, names) && !IsAuto(GroupName(line)) && !IsHeading(TrimSpace(line))
  }

  predicate AutoFrom(text: string, line: string, kind: Kind, names: seq<string>) {
    text == AutoOf(line, names) && EqualFold(GroupName(line), AutoName(kind)) && !IsHeading(TrimSpace(line))
  }

  /** Only certain lines stand in proxy and group sections. */
  predicate Placed(l: Line, section: string) {
    match l.from
    case Body => (InProxy(section) ==> Kept(l.text)) && (InGroups(section) ==> Blank(TrimSpace(l.text)))
    case Expanded => InGroups(section)
    case Auto(_) => InGroups(section)
    case Proxy(_) => InProxy(section)
    case Filler => InGroups(section) ==> l.text == ""
    case _ => true
  }

  /** Blank lines, comments, Direct and Block. */
  predicate Kept(text: string) {
    Blank(TrimSpace(text)) || DirectOrBlock(TrimSpace(text))
  }

  ghost predicate AllSourced(out: seq<Line>, lines: seq<string>, maps: seq<Mapping>, url: string) {
    forall l :: l in out ==> Sourced(l, lines, maps, url)
  }

  ghost predicate AllPlaced(out: seq<Line>) {
    forall i :: 0 <= i < |out| ==> Placed(out[i], SectionAbove(out, i))
  }

  lemma PlacedMore(out: seq<Line>, news: seq<Line>)
    requires AllPlaced(out)
    requires forall k :: 0 <= k < |news| ==> !Head(news[k]) && Placed(news[k], SectionAbove(out, |out|))
    ensures AllPlaced(out + news) && SectionAbove(out + news, |out + news|) == SectionAbove(out, |out|)
  {
    hide Placed;
    var all := out + news;
    forall i | 0 <= i < |all|
      ensures Placed(all[i], SectionAbove(all, i))
    {
      if i < |out| {
        SectionPrefix(out, news, i);
        assert all[i] == out[i];
      } else {
        SectionLasts(out, news, i - |out|);
        assert all[i] == news[i - |out|];
      }
    }
    SectionLasts(out, news, |news|);
  }

  lemma PlacedHeading(out: seq<Line>, l: Line)
    requires AllPlaced(out) && Head(l)
    ensures AllPlaced(out + [l]) && SectionAbove(out + [l], |out| + 1) == TrimSpace(l.text)
  {
    hide TrimSpace;
    var all := out + [l];
    forall i | 0 <= i < |all|
      ensures Placed(all[i], SectionAbove(all, i))
    {
      SectionPrefix(out, [l], i);
    }
  }

  // ---- the block of mapping lines ----

  /** The mapping lines stand at `p`, in order, and nowhere else. */
  ghost predicate BlockAt(out: seq<Line>, p: nat, maps: seq<Mapping>) {
    && p + |maps| <= |out|
    && (forall k :: 0 <= k < |maps| ==> out[p + k].from == Proxy(k))
    && forall i :: 0 <= i < |out| && out[i].from.Proxy? ==> p <= i < p + |maps|
  }

  ghost predicate NoProxy(out: seq<Line>) {
    forall i :: 0 <= i < |out| ==> !out[i].from.Proxy?
  }

  ghost predicate ProxyPart(out: seq<Line>, wrote: bool, maps: seq<Mapping>) {
    if wrote then exists p: nat :: BlockAt(out, p, maps) else NoProxy(out)
  }

  lemma BlockStays(out: seq<Line>, news: seq<Line>, wrote: bool, maps: seq<Mapping>)
    requires ProxyPart(out, wrote, maps) && NoProxy(news)
    ensures ProxyPart(out + news, wrote, maps)
  {
    var all := out + news;
    assert forall i :: |out| <= i < |all| ==> all[i] == news[i - |out|];
    if wrote {
      var p: nat :| BlockAt(out, p, maps);
      assert BlockAt(all, p, maps);
    }
  }

  lemma BlockBehind(pre: seq<Line>, out: seq<Line>, wrote: bool, maps: seq<Mapping>)
    requires ProxyPart(out, wrote, maps) && NoProxy(pre)
    ensures ProxyPart(pre + out, wrote, maps)
  {
    var all := pre + out;
    assert forall i :: |pre| <= i < |all| ==> all[i] == out[i - |pre|];
    if wrote {
      var p: nat :| BlockAt(out, p, maps);
      var q := |pre| + p;
      forall k | 0 <= k < |maps|
        ensures all[q + k].from == Proxy(k)
      {
        assert all[q + k] == out[p + k];
      }
      assert BlockAt(all, q, maps);
    }
  }

  lemma BlockStarts(out: seq<Line>, maps: seq<Mapping>)
    requires NoProxy(out)
    ensures ProxyPart(out + ProxyLines(maps), true, maps)
  {
    var all := out + ProxyLines(maps);
    assert forall k :: 0 <= k < |maps| ==> all[|out| + k] == ProxyLines(maps)[k];
    assert BlockAt(all, |out|, maps);
  }

  // ---- what every prefix of the template keeps ----

  ghost predicate Tidy(s: State, lines: seq<string>, maps: seq<Mapping>, url: string) {
    && AllSourced(s.out, lines, maps, url)
    && AllPlaced(s.out) && SectionAbove(s.out, |s.out|) == s.section
    && ProxyPart(s.out, s.wroteProxy, maps)
  }

  lemma TwoSections(section: string)
    ensures !(InProxy(section) && InGroups(section))
  {
    assert |Lower(PROXY_HEADING)| == 7 && |Lower("[Proxy Group]")| == 13;
  }

  /** A line that is no heading or mapping. */
  lemma EmitTidy(s: State, lines: seq<string>, maps: seq<Mapping>, url: string, text: string, from: Origin)
    requires Tidy(s, lines, maps, url) && !from.Heading? && !from.Proxy?
    requires Sourced(Line(text, from), lines, maps, url) && Placed(Line(text, from), s.section)
    ensures Tidy(Emit(s, text, from), lines, maps, url)
  {
    hide Sourced, Placed, SectionAbove, AllPlaced, ProxyPart;
    var news := [Line(text, from)];
    PlacedMore(s.out, news);
    BlockStays(s.out, news, s.wroteProxy, maps);
  }

  lemma AutoTidy(s: State, lines: seq<string>, maps: seq<Mapping>, url: string, text: string, kind: Kind)
    requires Tidy(s, lines, maps, url) && InGroups(s.section)
    requires Sourced(Line(text, Auto(kind)), lines, maps, url)
    ensures var t := Emit(s, text, Auto(kind));
      && Tidy(t.(wroteURLTest := true), lines, maps, url)
      && Tidy(t.(wroteSmart := true), lines, maps, url)
  {
    hide Sourced, AllSourced, AllPlaced, SectionAbove, ProxyPart;
    EmitTidy(s, lines, maps, url, text, Auto(kind));
  }

  lemma FlushTidy(s: State, lines: seq<string>, maps: seq<Mapping>, url: string)
    requires Tidy(s, lines, maps, url) && InGroups(s.section)
    ensures Tidy(Flush(s, NamesOf(maps)), lines, maps, url)
  {
    hide Tidy, InGroups, AddedAuto;
    var names := NamesOf(maps);
    var u := if s.wroteURLTest then s else Emit(s, AddedAuto(UrlTest, names), Auto(UrlTest)).(wroteURLTest := true);
    if !s.wroteURLTest {
      AutoTidy(s, lines, maps, url, AddedAuto(UrlTest, names), UrlTest);
    }
    var v := if u.wroteSmart then u else Emit(u, AddedAuto(Smart, names), Auto(Smart)).(wroteSmart := true);
    if !u.wroteSmart {
      AutoTidy(u, lines, maps, url, AddedAuto(Smart, names), Smart);
    }
    Assoc(s.out, AddedLine(s.wroteURLTest, UrlTest, names), AddedLine(s.wroteSmart, Smart, names));
    assert s.out + [] == s.out && u.out + [] == u.out;
    assert v == Flush(s, names);
  }

  lemma HeadingLineTidy(s: State, lines: seq<string>, maps: seq<Mapping>, url: string, text: string)
    requires Tidy(s, lines, maps, url) && Sourced(Line(text, Heading), lines, maps, url)
    ensures Tidy(Emit(s, text, Heading).(section := TrimSpace(text)), lines, maps, url)
  {
    hide Sourced, SectionAbove, AllPlaced, ProxyPart, TrimSpace;
    var news := [Line(text, Heading)];
    PlacedHeading(s.out, Line(text, Heading));
    BlockStays(s.out, news, s.wroteProxy, maps);
  }

  lemma HeadingTidy(s: State, lines: seq<string>, maps: seq<Mapping>, url: string, line: string)
    requires Tidy(s, lines, maps, url) && line in lines && IsHeading(TrimSpace(line))
    ensures Tidy(StepHeading(s, line, NamesOf(maps)), lines, maps, url)
  {
    hide Tidy, TrimSpace, Flush;
    if s.section == "[Proxy Group]" && NamesOf(maps) != [] {
      FlushTidy(s, lines, maps, url);
      HeadingLineTidy(Flush(s, NamesOf(maps)), lines, maps, url, line);
    } else {
      HeadingLineTidy(s, lines, maps, url, line);
    }
  }

  /** The mapping lines go into a proxy section. */
  lemma BlockTidy(s: State, lines: seq<string>, maps: seq<Mapping>, url: string, gap: seq<Line>)
    requires Tidy(s, lines, maps, url) && !s.wroteProxy && InProxy(s.section)
    requires gap == [] || gap == [Line("", Filler)]
    ensures Tidy(s.(out := s.out + (gap + ProxyLines(maps)), wroteProxy := true), lines, maps, url)
  {
    hide SectionAbove, AllPlaced, InProxy, InGroups, Sourced, Placed, ProxyLines;
    var ps := ProxyLines(maps);
    Assoc(s.out, gap, ps);
    BlockLines(gap, s.section, lines, maps, url);
    PlacedMore(s.out, gap + ps);
    BlockStays(s.out, gap, false, maps);
    BlockStarts(s.out + gap, maps);
  }

  lemma BlockLines(gap: seq<Line>, section: string, lines: seq<string>, maps: seq<Mapping>, url: string)
    requires InProxy(section) && (gap == [] || gap == [Line("", Filler)])
    ensures forall l :: l in gap + ProxyLines(maps) ==>
      !Head(l) && Placed(l, section) && Sourced(l, lines, maps, url)
  {
    hide InProxy, InGroups;
    var ps := ProxyLines(maps);
    forall l | l in gap + ps
      ensures !Head(l) && Placed(l, section) && Sourced(l, lines, maps, url)
    {
      if l in ps {
        var k :| 0 <= k < |ps| && ps[k] == l;
      }
    }
  }

  lemma ProxyTidy(s: State, lines: seq<string>, maps: seq<Mapping>, url: string, line: string)
    requires Tidy(s, lines, maps, url) && InProxy(s.section)
    requires line in lines && !IsHeading(TrimSpace(line)) && !IsManaged(line)
    ensures Tidy(StepProxy(s, line, maps), lines, maps, url)
  {
    hide Tidy, TrimSpace, InProxy, InGroups, Blank, DirectOrBlock, ProxyLines, IsManaged;
    TwoSections(s.section);
    if Blank(TrimSpace(line)) || DirectOrBlock(TrimSpace(line)) {
      EmitTidy(s, lines, maps, url, line, Body);
    } else if !s.wroteProxy {
      BlockTidy(s, lines, maps, url, Gap(s.out));
    }
  }

  lemma GroupTidy(s: State, lines: seq<string>, maps: seq<Mapping>, url: string, line: string)
    requires Tidy(s, lines, maps, url) && InGroups(s.section)
    requires line in lines && !IsHeading(TrimSpace(line)) && !IsManaged(line)
    ensures Tidy(StepGroup(s, line, NamesOf(maps)), lines, maps, url)
  {
    hide Tidy, TrimSpace, InProxy, InGroups, Blank, DirectOrBlock, IsManaged, EqualFold, GroupName, AutoOf, ExpandOf;
    TwoSections(s.section);
    var names := NamesOf(maps);
    if Blank(TrimSpace(line)) {
      EmitTidy(s, lines, maps, url, line, Body);
    } else if EqualFold(GroupName(line), URL_TEST) {
      if !s.wroteURLTest {
        assert AutoFrom(AutoOf(line, names), line, UrlTest, names);
        AutoTidy(s, lines, maps, url, AutoOf(line, names), UrlTest);
      }
    } else if EqualFold(GroupName(line), SMART) {
      if !s.wroteSmart {
        assert AutoFrom(AutoOf(line, names), line, Smart, names);
        AutoTidy(s, lines, maps, url, AutoOf(line, names), Smart);
      }
    } else {
      assert ExpandedFrom(ExpandOf(line, names), line, names);
      EmitTidy(s, lines, maps, url, ExpandOf(line, names), Expanded);
    }
  }

  lemma StepTidy(s: State, lines: seq<string>, maps: seq<Mapping>, url: string, line: string)
    requires Tidy(s, lines, maps, url) && line in lines
    ensures Tidy(StepLine(s, line, maps, url), lines, maps, url)
  {
    hide Tidy, TrimSpace, IsHeading, InProxy, InGroups, IsManaged, StepHeading, StepProxy, StepGroup, ManagedLine;
    if IsManaged(line) {
      EmitTidy(s, lines, maps, url, ManagedLine(url), Managed);
    } else if IsHeading(TrimSpace(line)) {
      HeadingTidy(s, lines, maps, url, line);
    } else if InProxy(s.section) {
      ProxyTidy(s, lines, maps, url, line);
    } else if InGroups(s.section) {
      GroupTidy(s, lines, maps, url, line);
    } else {
      EmitTidy(s, lines, maps, url, line, Body);
    }
  }

  lemma {:induction false} AlwaysTidy(lines: seq<string>, n: nat, maps: seq<Mapping>, url: string)
    requires n <= |lines|
    ensures Tidy(AfterLines(lines[..n], maps, url), lines, maps, url)
  {
    hide StepLine;
    if n > 0 {
      assert lines[..n][..n - 1] == lines[..n - 1] && lines[..n][n - 1] == lines[n - 1];
      AlwaysTidy(lines, n - 1, maps, url);
      StepTidy(AfterLines(lines[..n - 1], maps, url), lines, maps, url, lines[n - 1]);
    }
  }

  lemma HeadingTrims()
    ensures TrimSpace(PROXY_HEADING) == PROXY_HEADING && InProxy(PROXY_HEADING)
  {
    TrimTrimmed(PROXY_HEADING);
  }

  /** The end of the profile. */
  lemma FinishTidy(s: State, lines: seq<string>, maps: seq<Mapping>, url: string)
    requires Tidy(s, lines, maps, url)
    ensures var t := FinishProxy(FinishGroups(s, maps), maps);
      Tidy(t, lines, maps, url) && (t.wroteProxy || maps == [])
  {
    hide Tidy, InGroups, InProxy, TrimSpace, ProxyLines, MissingAuto;
    var t := FinishGroups(s, maps);
    if InGroups(s.section) {
      FlushTidy(s, lines, maps, url);
    }
    if !t.wroteProxy && maps != [] {
      HeadingTrims();
      TwoSections(PROXY_HEADING);
      EmitTidy(t, lines, maps, url, "", Filler);
      var u := Emit(t, "", Filler);
      HeadingLineTidy(u, lines, maps, url, PROXY_HEADING);
      var v := Emit(u, PROXY_HEADING, Heading).(section := PROXY_HEADING);
      EmitTidy(v, lines, maps, url, DIRECT, Filler);
      var w := Emit(v, DIRECT, Filler);
      EmitTidy(w, lines, maps, url, BLOCK, Filler);
      var x := Emit(w, BLOCK, Filler);
      BlockTidy(x, lines, maps, url, []);
      assert x.out == t.out + PROXY_SECTION;
      assert [] + ProxyLines(maps) == ProxyLines(maps);
    }
  }

  /** Lines before everything stand in no section. */
  lemma {:induction false} SectionBehind(pre: seq<Line>, out: seq<Line>, i: nat)
    requires i <= |out| && forall k :: 0 <= k < |pre| ==> !Head(pre[k])
    ensures SectionAbove(pre + out, |pre| + i) == SectionAbove(out, i)
  {
    if i == 0 {
      SectionPrefix(pre, out, |pre|);
      SectionLasts([], pre, |pre|);
      assert [] + pre == pre;
    } else {
      assert (pre + out)[|pre| + i - 1] == out[i - 1];
      SectionBehind(pre, out, i - 1);
    }
  }

  lemma NoSection()
    ensures !InProxy("") && !InGroups("")
  {
    assert |Lower(PROXY_HEADING)| == 7 && |Lower("[Proxy Group]")| == 13;
  }

  lemma PlacedFirst(l: Line)
    requires l.from.Managed? || l.from.Filler?
    ensures Placed(l, SectionAbove([], 0))
  {
    hide InProxy, InGroups;
    NoSection();
  }

  lemma HeaderPlaced(pre: seq<Line>, out: seq<Line>)
    requires AllPlaced(out) && forall k :: 0 <= k < |pre| ==> pre[k].from.Managed? || pre[k].from.Filler?
    ensures AllPlaced(pre + out)
  {
    hide InProxy, InGroups, Placed, SectionAbove;
    var all := pre + out;
    forall i | 0 <= i < |all|
      ensures Placed(all[i], SectionAbove(all, i))
    {
      if i < |pre| {
        SectionPrefix(pre, out, i);
        SectionLasts([], pre, i);
        assert [] + pre == pre && all[i] == pre[i];
        PlacedFirst(pre[i]);
      } else {
        SectionBehind(pre, out, i - |pre|);
        assert all[i] == out[i - |pre|];
      }
    }
  }

  /** What holds of every rewritten profile. */
  ghost predicate Good(out: seq<Line>, lines: seq<string>, maps: seq<Mapping>, url: string) {
    AllSourced(out, lines, maps, url) && AllPlaced(out) && ProxyPart(out, true, maps)
  }

  lemma HeaderGood(s: State, lines: seq<string>, maps: seq<Mapping>, url: string)
    requires Tidy(s, lines, maps, url) && (s.wroteProxy || maps == [])
    ensures Good(WithHeader(s.out, url), lines, maps, url)
  {
    hide SectionAbove, AllPlaced, IsManaged, JoinLines, ManagedLine;
    var pre := [Line(ManagedLine(url), Managed), Line("", Filler)];
    if !s.wroteProxy {
      assert BlockAt(s.out, 0, maps);
    }
    HeaderPlaced(pre, s.out);
    BlockBehind(pre, s.out, true, maps);
  }

  lemma RewrittenGood(lines: seq<string>, maps: seq<Mapping>, url: string)
    ensures Good(Rewritten(lines, maps, url), lines, maps, url)
  {
    hide Tidy, Good, AfterLines, FinishProxy, FinishGroups, WithHeader;
    AlwaysTidy(lines, |lines|, maps, url);
    assert lines[..|lines|] == lines;
    var s := AfterLines(lines, maps, url);
    FinishTidy(s, lines, maps, url);
    HeaderGood(FinishProxy(FinishGroups(s, maps), maps), lines, maps, url);
  }
}
