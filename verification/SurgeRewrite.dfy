/** Rewriting a Surge template for local clients, line by line: the proxies become the local mappings, the groups
    are expanded. In the specification every output line carries its origin; the method emits text alone, and the
    theorems speak of text and of the section it stands in. */
module SurgeRewrite {
  import opened Bytes
  import opened Text
  import opened SurgeGroups

  /** A mapping: the node's name and its local proxy line. */
  datatype Mapping = Mapping(name: string, socks: string)

  datatype Kind = UrlTest | Smart

  /** Where an output line comes from. `Body` is a template line kept as it is, `Expanded` a group line. */
  datatype Origin = Managed | Heading | Body | Expanded | Auto(kind: Kind) | Proxy(k: nat) | Filler

  datatype Line = Line(text: string, from: Origin)

  datatype State = State(out: seq<Line>, section: string, wroteProxy: bool, wroteURLTest: bool, wroteSmart: bool)

  const START := State([], "", false, false, false)

  const MANAGED_PREFIX := "#!MANAGED-CONFIG"
  const PROXY_HEADING := "[Proxy]"
  const DIRECT := "Direct = direct"
  const BLOCK := "Block = reject"

  function ManagedLine(url: string): string {
    MANAGED_PREFIX + " " + url + " interval=86400 strict=false"
  }

  predicate IsHeading(trim: string) {
    HasPrefix(trim, "[") && HasSuffix(trim, "]")
  }

  predicate InProxy(section: string) {
    EqualFold(section, PROXY_HEADING)
  }

  predicate InGroups(section: string) {
    EqualFold(section, "[Proxy Group]")
  }

  predicate Blank(trim: string) {
    trim == "" || HasPrefix(trim, "#")
  }

  predicate DirectOrBlock(trim: string) {
    var low := Lower(trim);
    HasPrefix(low, "direct ") || HasPrefix(low, "direct=") || HasPrefix(low, "block ") || HasPrefix(low, "block=")
  }

  predicate IsManaged(line: string) {
    HasPrefix(TrimSpace(line), MANAGED_PREFIX)
  }

  function NamesOf(maps: seq<Mapping>): (r: seq<string>)
    ensures |r| == |maps|
  {
    seq(|maps|, i requires 0 <= i < |maps| => maps[i].name)
  }

  function AutoName(kind: Kind): string {
    if kind.UrlTest? then URL_TEST else SMART
  }

  /** The automatic group added to a section that has none. */
  function AddedAuto(kind: Kind, names: seq<string>): string {
    if kind.UrlTest? then URL_TEST + " = url-test, " + JoinComma(names)
    else SMART + " = smart, " + JoinComma(names)
  }

  // ---- the rewrite on values ----

  function ProxyLines(maps: seq<Mapping>): (r: seq<Line>)
    ensures |r| == |maps|
  {
    seq(|maps|, i requires 0 <= i < |maps| => Line(maps[i].socks, Proxy(i)))
  }

  function AddedLine(wrote: bool, kind: Kind, names: seq<string>): seq<Line> {
    if wrote then [] else [Line(AddedAuto(kind, names), Auto(kind))]
  }

  function MissingAuto(names: seq<string>, s: State): seq<Line> {
    AddedLine(s.wroteURLTest, UrlTest, names) + AddedLine(s.wroteSmart, Smart, names)
  }

  function Emit(s: State, text: string, from: Origin): State {
    s.(out := s.out + [Line(text, from)])
  }

  function Flush(s: State, names: seq<string>): State {
    s.(out := s.out + MissingAuto(names, s), wroteURLTest := true, wroteSmart := true)
  }

  function StepHeading(s: State, line: string, names: seq<string>): State {
    var t := if s.section == "[Proxy Group]" && names != [] then Flush(s, names) else s;
    Emit(t, line, Heading).(section := TrimSpace(line))
  }

  function Gap(out: seq<Line>): seq<Line> {
    if out != [] && TrimSpace(out[|out| - 1].text) != "" then [Line("", Filler)] else []
  }

  function StepProxy(s: State, line: string, maps: seq<Mapping>): State {
    var trim := TrimSpace(line);
    if Blank(trim) || DirectOrBlock(trim) then Emit(s, line, Body)
    else if s.wroteProxy then s
    else s.(out := s.out + (Gap(s.out) + ProxyLines(maps)), wroteProxy := true)
  }

  function StepGroup(s: State, line: string, names: seq<string>): State {
    var name := GroupName(line);
    if Blank(TrimSpace(line)) then Emit(s, line, Body)
    else if EqualFold(name, URL_TEST) then
      if s.wroteURLTest then s else Emit(s, AutoOf(line, names), Auto(UrlTest)).(wroteURLTest := true)
    else if EqualFold(name, SMART) then
      if s.wroteSmart then s else Emit(s, AutoOf(line, names), Auto(Smart)).(wroteSmart := true)
    else Emit(s, ExpandOf(line, names), Expanded)
  }

  function StepLine(s: State, line: string, maps: seq<Mapping>, url: string): State {
    if IsManaged(line) then Emit(s, ManagedLine(url), Managed)
    else if IsHeading(TrimSpace(line)) then StepHeading(s, line, NamesOf(maps))
    else if InProxy(s.section) then StepProxy(s, line, maps)
    else if InGroups(s.section) then StepGroup(s, line, NamesOf(maps))
    else Emit(s, line, Body)
  }

  function AfterLines(lines: seq<string>, maps: seq<Mapping>, url: string): State {
    if lines == [] then START
    else StepLine(AfterLines(lines[..|lines| - 1], maps, url), lines[|lines| - 1], maps, url)
  }

  /** The groups still missing at the end of the template. */
  function FinishGroups(s: State, maps: seq<Mapping>): State {
    if InGroups(s.section) && maps != [] then Flush(s, NamesOf(maps)) else s
  }

  const PROXY_SECTION := [Line("", Filler), Line(PROXY_HEADING, Heading), Line(DIRECT, Filler), Line(BLOCK, Filler)]

  /** The proxy section a template without one is given. */
  function FinishProxy(s: State, maps: seq<Mapping>): State {
    if s.wroteProxy || maps == [] then s
    else s.(out := s.out + PROXY_SECTION + ProxyLines(maps), section := PROXY_HEADING, wroteProxy := true)
  }

  function Texts(out: seq<Line>): (r: seq<string>)
    ensures |r| == |out|
  {
    seq(|out|, i requires 0 <= i < |out| => out[i].text)
  }

  function JoinLines(ls: seq<string>): string {
    if ls == [] then "" else if |ls| == 1 then ls[0] else ls[0] + "\n" + JoinLines(ls[1..])
  }

  /** Cut at its newlines the text gives the lines back. */
  lemma {:induction false} LinesJoin(ls: seq<string>)
    requires ls != [] && forall l :: l in ls ==> '\n' !in l
    ensures SplitOn(JoinLines(ls), '\n') == ls
  {
    hide SplitOn;
    if |ls| == 1 {
      OneLine(ls[0], "");
      assert ls == [ls[0]];
    } else {
      LinesJoin(ls[1..]);
      OneLine(ls[0], JoinLines(ls[1..]));
      assert JoinLines(ls) == ls[0] + ("\n" + JoinLines(ls[1..]));
      assert ls == [ls[0]] + ls[1..];
    }
  }

  lemma {:induction false} OneLine(l: string, rest: string)
    requires '\n' !in l
    ensures SplitOn(l, '\n') == [l] && SplitOn(l + ("\n" + rest), '\n') == [l] + SplitOn(rest, '\n')
  {
    var s := l + ("\n" + rest);
    if l == "" {
      assert s[0] == '\n' && s[1..] == rest;
    } else {
      OneLine(l[1..], rest);
      assert s[1..] == l[1..] + ("\n" + rest);
      assert l == [l[0]] + l[1..];
      assert ([l[1..]] + SplitOn(rest, '\n'))[1..] == SplitOn(rest, '\n');
    }
  }

  /** A profile that does not begin with its managed header is given one. */
  function WithHeader(out: seq<Line>, url: string): seq<Line> {
    if IsManaged(JoinLines(Texts(out))) then out
    else [Line(ManagedLine(url), Managed), Line("", Filler)] + out
  }

  /** The profile without its header. */
  function Unheaded(lines: seq<string>, maps: seq<Mapping>, url: string): seq<Line> {
    FinishProxy(FinishGroups(AfterLines(lines, maps, url), maps), maps).out
  }

  function Rewritten(lines: seq<string>, maps: seq<Mapping>, url: string): seq<Line> {
    WithHeader(Unheaded(lines, maps, url), url)
  }

  // ---- the rewrite as a loop ----

  lemma TextsConcat(a: seq<Line>, b: seq<Line>)
    ensures Texts(a + b) == Texts(a) + Texts(b)
  {
  }

  method AppendProxies(out: seq<string>, maps: seq<Mapping>) returns (r: seq<string>)
    ensures r == out + Texts(ProxyLines(maps))
  {
    r := out;
    assert out + Texts(ProxyLines(maps))[..0] == out;
    for i := 0 to |maps|
      invariant r == out + Texts(ProxyLines(maps))[..i]
    {
      r := r + [maps[i].socks];
    }
  }

  /** missingAutoGroups. */
  method MissingAutoGroups(names: seq<string>, wroteURLTest: bool, wroteSmart: bool) returns (r: seq<string>)
    ensures forall s: State :: s.wroteURLTest == wroteURLTest && s.wroteSmart == wroteSmart ==>
      r == Texts(MissingAuto(names, s))
  {
    r := [];
    if !wroteURLTest {
      r := r + [URL_TEST + " = url-test, " + JoinComma(names)];
    }
    if !wroteSmart {
      r := r + [SMART + " = smart, " + JoinComma(names)];
    }
  }

  /** The loop's variables show the state. */
  ghost predicate Shows(s: State, out: seq<string>, section: string,
                        wroteProxy: bool, wroteURLTest: bool, wroteSmart: bool) {
    && out == Texts(s.out) && section == s.section
    && wroteProxy == s.wroteProxy && wroteURLTest == s.wroteURLTest && wroteSmart == s.wroteSmart
  }

  /** One line of a proxy section. */
  method ProxySection(ghost s: State, line: string, maps: seq<Mapping>, out: seq<string>, wroteProxy: bool)
    returns (r: seq<string>, wrote: bool)
    requires out == Texts(s.out) && wroteProxy == s.wroteProxy
    ensures var t := StepProxy(s, line, maps);
      && r == Texts(t.out) && wrote == t.wroteProxy
      && t.section == s.section && t.wroteURLTest == s.wroteURLTest && t.wroteSmart == s.wroteSmart
  {
    hide Blank, DirectOrBlock, TrimSpace, ProxyLines;
    var trim := TrimSpace(line);
    if Blank(trim) || DirectOrBlock(trim) {
      return out + [line], wroteProxy;
    }
    r, wrote := out, wroteProxy;
    if !wroteProxy {
      TextsConcat(Gap(s.out), ProxyLines(maps));
      TextsConcat(s.out, Gap(s.out) + ProxyLines(maps));
      if |out| > 0 && TrimSpace(out[|out| - 1]) != "" {
        r := r + [""];
      }
      r := AppendProxies(r, maps);
      wrote := true;
    }
  }

  /** One line of a group section. */
  method GroupSection(ghost s: State, line: string, names: seq<string>, out: seq<string>,
                      wroteURLTest: bool, wroteSmart: bool)
    returns (r: seq<string>, wroteU: bool, wroteS: bool)
    requires out == Texts(s.out) && wroteURLTest == s.wroteURLTest && wroteSmart == s.wroteSmart
    ensures var t := StepGroup(s, line, names);
      && r == Texts(t.out) && wroteU == t.wroteURLTest && wroteS == t.wroteSmart
      && t.section == s.section && t.wroteProxy == s.wroteProxy
  {
    hide AutoOf, ExpandOf, EqualFold, GroupName, Blank, TrimSpace;
    r, wroteU, wroteS := out, wroteURLTest, wroteSmart;
    if Blank(TrimSpace(line)) {
      r := r + [line];
      return;
    }
    var name := GroupName(line);
    if EqualFold(name, URL_TEST) {
      if !wroteURLTest {
        var text := RewriteAutoGroup(line, names);
        r, wroteU := r + [text], true;
      }
      return;
    }
    if EqualFold(name, SMART) {
      if !wroteSmart {
        var text := RewriteAutoGroup(line, names);
        r, wroteS := r + [text], true;
      }
      return;
    }
    var text := ExpandGroup(line, names);
    r := r + [text];
  }

  /** A heading, and before it the groups its section misses. */
  method HeadingLine(ghost s: State, line: string, names: seq<string>, out: seq<string>, section: string,
                     wroteURLTest: bool, wroteSmart: bool)
    returns (r: seq<string>, wroteU: bool, wroteS: bool)
    requires Shows(s, out, section, s.wroteProxy, wroteURLTest, wroteSmart)
    ensures Shows(StepHeading(s, line, names), r, TrimSpace(line), s.wroteProxy, wroteU, wroteS)
  {
    hide TrimSpace, MissingAuto;
    r, wroteU, wroteS := out, wroteURLTest, wroteSmart;
    if section == "[Proxy Group]" && |names| > 0 {
      var more := MissingAutoGroups(names, wroteURLTest, wroteSmart);
      TextsConcat(s.out, MissingAuto(names, s));
      r, wroteU, wroteS := r + more, true, true;
    }
    r := r + [line];
  }

  /** The loop over the template. */
  method RewriteLines(lines: seq<string>, maps: seq<Mapping>, url: string)
    returns (out: seq<string>, section: string, wroteProxy: bool, wroteURLTest: bool, wroteSmart: bool)
    ensures Shows(AfterLines(lines, maps, url), out, section, wroteProxy, wroteURLTest, wroteSmart)
  {
    hide IsHeading, InProxy, InGroups, TrimSpace, ManagedLine, IsManaged, StepProxy, StepGroup, StepHeading;
    out, section, wroteProxy, wroteURLTest, wroteSmart := [], "", false, false, false;
    var names := NamesOf(maps);
    for i := 0 to |lines|
      invariant Shows(AfterLines(lines[..i], maps, url), out, section, wroteProxy, wroteURLTest, wroteSmart)
    {
      assert lines[..i + 1][..i] == lines[..i];
      var line := lines[i];
      ghost var s := AfterLines(lines[..i], maps, url);
      hide AfterLines;
      if IsManaged(line) {
        out := out + [ManagedLine(url)];
        continue;
      }
      if IsHeading(TrimSpace(line)) {
        out, wroteURLTest, wroteSmart := HeadingLine(s, line, names, out, section, wroteURLTest, wroteSmart);
        section := TrimSpace(line);
        continue;
      }
      if InProxy(section) {
        out, wroteProxy := ProxySection(s, line, maps, out, wroteProxy);
      } else if InGroups(section) {
        out, wroteURLTest, wroteSmart := GroupSection(s, line, names, out, wroteURLTest, wroteSmart);
      } else {
        out := out + [line];
      }
    }
    assert lines[..|lines|] == lines;
  }

  /** The texts of the rewritten profile. */
  method RewriteSurge(lines: seq<string>, maps: seq<Mapping>, url: string) returns (out: seq<string>)
    ensures out == Texts(Rewritten(lines, maps, url))
  {
    hide InGroups, IsManaged, ManagedLine, JoinLines, ProxyLines, MissingAuto, AfterLines;
    var section, wroteProxy, wroteURLTest, wroteSmart;
    out, section, wroteProxy, wroteURLTest, wroteSmart := RewriteLines(lines, maps, url);
    ghost var s := AfterLines(lines, maps, url);
    ghost var t := FinishGroups(s, maps);
    if InGroups(section) && |maps| > 0 {
      var more := MissingAutoGroups(NamesOf(maps), wroteURLTest, wroteSmart);
      TextsConcat(s.out, MissingAuto(NamesOf(maps), s));
      out := out + more;
    }
    if !wroteProxy && |maps| > 0 {
      TextsConcat(t.out, PROXY_SECTION);
      TextsConcat(t.out + PROXY_SECTION, ProxyLines(maps));
      assert Texts(PROXY_SECTION) == ["", PROXY_HEADING, DIRECT, BLOCK];
      out := AppendProxies(out + ["", PROXY_HEADING, DIRECT, BLOCK], maps);
    }
    if !IsManaged(JoinLines(out)) {
      out := [ManagedLine(url), ""] + out;
    }
  }
}
