/** The lines of a Surge profile that define proxy groups: comma lists with quotes, and the expansion of their
    members. */
module SurgeGroups {
  import opened Bytes
  import opened Text

  // ---- comma lists ----

  /** What is left of a list once `cur` of the current member has been read. */
  function SplitRest(s: string, cur: string, quoted: bool, escaped: bool): (r: seq<string>)
    ensures r != []
    decreases |s|
  {
    if s == "" then [TrimSpace(cur)]
    else if escaped then SplitRest(s[1..], cur + [s[0]], quoted, false)
    else if s[0] == '\\' then SplitRest(s[1..], cur + [s[0]], quoted, true)
    else if s[0] == '"' then SplitRest(s[1..], cur + [s[0]], !quoted, false)
    else if s[0] == ',' && !quoted then [TrimSpace(cur)] + SplitRest(s[1..], "", false, false)
    else SplitRest(s[1..], cur + [s[0]], quoted, false)
  }

  function CSV(s: string): (r: seq<string>)
    ensures r != []
  {
    SplitRest(s, "", false, false)
  }

  method SplitCSV(s: string) returns (out: seq<string>)
    ensures out == CSV(s)
  {
    out := [];
    var start, quoted, escaped := 0, false, false;
    assert s[0..] == s && s[0..0] == "";
    for i := 0 to |s|
      invariant 0 <= start <= i
      invariant CSV(s) == out + SplitRest(s[i..], s[start..i], quoted, escaped)
    {
      assert s[i..][0] == s[i] && s[i..][1..] == s[i + 1..];
      assert s[start..i] + [s[i]] == s[start..i + 1];
      if escaped {
        escaped := false;
      } else if s[i] == '\\' {
        escaped := true;
      } else if s[i] == '"' {
        quoted := !quoted;
      } else if s[i] == ',' && !quoted {
        out := out + [TrimSpace(s[start..i])];
        start := i + 1;
        assert s[start..i + 1] == "";
      }
    }
    assert s[|s|..] == "";
    out := out + [TrimSpace(s[start..])];
    assert s[start..|s|] == s[start..];
  }

  function JoinComma(ps: seq<string>): string {
    if ps == [] then "" else if |ps| == 1 then ps[0] else ps[0] + ", " + JoinComma(ps[1..])
  }

  // ---- which members survive joining and splitting ----

  /** The quote and escape state after one character. */
  function Next(c: char, quoted: bool, escaped: bool): (bool, bool) {
    if escaped then (quoted, false)
    else if c == '\\' then (quoted, true)
    else if c == '"' then (!quoted, false)
    else (quoted, false)
  }

  /** The first comma outside quotes and escapes, or the length. */
  function FirstComma(s: string, quoted: bool, escaped: bool): (i: nat)
    ensures i <= |s|
    decreases |s|
  {
    if s == "" || (s[0] == ',' && !quoted && !escaped) then 0
    else var n := Next(s[0], quoted, escaped); 1 + FirstComma(s[1..], n.0, n.1)
  }

  /** The quote and escape state after a text. */
  function After(s: string, quoted: bool, escaped: bool): (bool, bool)
    decreases |s|
  {
    if s == "" then (quoted, escaped) else var n := Next(s[0], quoted, escaped); After(s[1..], n.0, n.1)
  }

  /** A trimmed text without a comma outside quotes. */
  predicate LastMember(p: string) {
    FirstComma(p, false, false) == |p| && TrimSpace(p) == p
  }

  /** One whose quotes and escapes are closed as well, so that something may follow it. */
  predicate OneMember(p: string) {
    LastMember(p) && After(p, false, false) == (false, false)
  }

  predicate ReadsBack(ps: seq<string>) {
    ps != [] && (forall i :: 0 <= i < |ps| - 1 ==> OneMember(ps[i])) && LastMember(ps[|ps| - 1])
  }

  predicate AtComma(s: string, quoted: bool, escaped: bool) {
    s != "" && s[0] == ',' && !quoted && !escaped
  }

  /** One character of the current member. */
  lemma SplitStep(s: string, cur: string, quoted: bool, escaped: bool)
    requires s != "" && !AtComma(s, quoted, escaped)
    ensures var n := Next(s[0], quoted, escaped);
      && SplitRest(s, cur, quoted, escaped) == SplitRest(s[1..], cur + [s[0]], n.0, n.1)
      && FirstComma(s, quoted, escaped) == 1 + FirstComma(s[1..], n.0, n.1)
  {
    hide TrimSpace;
  }

  /** The end of the current member. */
  lemma SplitEnd(s: string, cur: string, quoted: bool, escaped: bool)
    requires s == "" || AtComma(s, quoted, escaped)
    ensures FirstComma(s, quoted, escaped) == 0
    ensures SplitRest(s, cur, quoted, escaped) ==
      [TrimSpace(cur)] + (if s == "" then [] else SplitRest(s[1..], "", false, false))
  {
    hide TrimSpace;
  }

  lemma Behind(s: string, cur: string, i: nat)
    requires s != "" && 0 < i <= |s|
    ensures cur + [s[0]] + s[1..][..i - 1] == cur + s[..i]
    ensures i < |s| ==> s[1..][i..] == s[i + 1..]
  {
  }

  /** The first member ends at the first comma, and the rest starts afresh. */
  lemma {:induction false} SplitFirst(s: string, cur: string, quoted: bool, escaped: bool)
    ensures var i := FirstComma(s, quoted, escaped);
      SplitRest(s, cur, quoted, escaped) ==
        [TrimSpace(cur + s[..i])] + (if i < |s| then SplitRest(s[i + 1..], "", false, false) else [])
    decreases |s|
  {
    hide TrimSpace, SplitRest, FirstComma, Next;
    if s == "" || AtComma(s, quoted, escaped) {
      SplitEnd(s, cur, quoted, escaped);
      assert cur + s[..0] == cur;
    } else {
      var n := Next(s[0], quoted, escaped);
      SplitStep(s, cur, quoted, escaped);
      SplitFirst(s[1..], cur + [s[0]], n.0, n.1);
      Behind(s, cur, FirstComma(s, quoted, escaped));
    }
  }

  /** A comma inside `p` stays the first one whatever follows; without one, the search goes on behind `p`. */
  lemma {:induction false} CommaOf(p: string, t: string, quoted: bool, escaped: bool)
    ensures var i := FirstComma(p, quoted, escaped); var n := After(p, quoted, escaped);
      FirstComma(p + t, quoted, escaped) == if i < |p| then i else |p| + FirstComma(t, n.0, n.1)
    decreases |p|
  {
    if p == "" {
      assert p + t == t;
    } else {
      assert (p + t)[1..] == p[1..] + t;
      var n := Next(p[0], quoted, escaped);
      CommaOf(p[1..], t, n.0, n.1);
    }
  }

  /** Spaces before a list do not matter. */
  lemma LeadingSpace(s: string, lead: string)
    requires lead == "" || lead == " "
    ensures SplitRest(s, lead, false, false) == CSV(s)
  {
    hide SplitRest, TrimSpace;
    SplitFirst(s, lead, false, false);
    SplitFirst(s, "", false, false);
    var x := s[..FirstComma(s, false, false)];
    assert lead + x + "" == lead + x && "" + x == x;
    TrimPad(lead, x, "");
  }

  lemma CommaStarts(rest: string)
    ensures FirstComma(", " + rest, false, false) == 0
    ensures forall q, e :: q || e ==> FirstComma(", " + rest, q, e) >= 1
    ensures (", " + rest)[1..] == " " + rest
  {
  }

  lemma SpaceIn(rest: string)
    ensures CSV(" " + rest) == CSV(rest)
  {
    hide TrimSpace;
    assert (" " + rest)[1..] == rest && "" + " " == " ";
    assert CSV(" " + rest) == SplitRest(rest, " ", false, false);
    hide SplitRest;
    LeadingSpace(rest, " ");
  }

  /** A stretch that runs past the end of `p` and over the comma behind it does not trim to `p`. */
  lemma TooLong(p: string, rest: string, j: nat)
    requires p != "" && |p| < j <= |p + (", " + rest)|
    ensures TrimSpace((p + (", " + rest))[..j]) != p
  {
    var x := (p + (", " + rest))[..j];
    assert x[|p|] == ',' && x[0] == p[0];
    var a, b := TrimShape(x);
    TrimTrimmed(x);
    TrimTrimmed(p);
    assert a <= |p| < b;
    if a > 0 {
      assert IsSpace(x[0]);
    }
  }

  /** The members of two lists are compared first by first. */
  lemma HeadTail(p: string, ps: seq<string>, q: string, qs: seq<string>)
    ensures [p] + ps == [q] + qs <==> p == q && ps == qs
  {
    if [p] + ps == [q] + qs {
      assert ([p] + ps)[0] == p && ([q] + qs)[0] == q;
      assert ([p] + ps)[1..] == ps && ([q] + qs)[1..] == qs;
    }
  }

  /** How a joined list of two members or more is split: as it should be if its first member is one, and with
      another first member if not. */
  lemma FirstMember(p: string, rest: string)
    ensures OneMember(p) ==> CSV(p + (", " + rest)) == [p] + CSV(rest)
    ensures !OneMember(p) ==> CSV(p + (", " + rest))[0] != p
  {
    hide SplitRest, TrimSpace, CSV;
    var line := p + (", " + rest);
    SplitAtComma(line);
    CommaOf(p, ", " + rest, false, false);
    CommaStarts(rest);
    var i, j, n := FirstComma(p, false, false), FirstComma(line, false, false), After(p, false, false);
    if i < |p| {
      assert line[..j] == p[..i];
      Shorter(p[..i]);
    } else if n == (false, false) {
      assert line[..j] == p;
      assert line[j + 1..] == " " + rest;
      SpaceIn(rest);
    } else {
      assert p != "";
      TooLong(p, rest, j);
    }
  }

  lemma SplitAtComma(s: string)
    ensures var i := FirstComma(s, false, false);
      CSV(s) == [TrimSpace(s[..i])] + (if i < |s| then CSV(s[i + 1..]) else [])
  {
    hide SplitRest, TrimSpace;
    SplitFirst(s, "", false, false);
    assert "" + s[..FirstComma(s, false, false)] == s[..FirstComma(s, false, false)];
  }

  lemma Shorter(x: string)
    ensures |TrimSpace(x)| <= |x|
  {
    var a, b := TrimShape(x);
  }

  /** For every list of members: joined and split again it comes back if and only if every member but the last is
      one member, and the last is trimmed and holds no comma outside quotes. */
  lemma {:induction false} SplitJoin(ps: seq<string>)
    requires ps != []
    ensures CSV(JoinComma(ps)) == ps <==> ReadsBack(ps)
  {
    hide CSV, FirstComma, After, TrimSpace;
    var p := ps[0];
    if |ps| == 1 {
      SplitAtComma(p);
      assert p[..|p|] == p;
      assert ps == [p];
    } else {
      var tail := ps[1..];
      assert ps == [p] + tail;
      assert JoinComma(ps) == p + (", " + JoinComma(tail));
      FirstMember(p, JoinComma(tail));
      SplitJoin(tail);
      HeadTail(p, CSV(JoinComma(tail)), p, tail);
      ReadsBackTail(ps);
    }
  }

  lemma ReadsBackTail(ps: seq<string>)
    requires |ps| > 1
    ensures ReadsBack(ps) <==> OneMember(ps[0]) && ReadsBack(ps[1..])
  {
    hide LastMember, OneMember;
    assert forall i :: 1 <= i < |ps| - 1 ==> ps[i] == ps[1..][i - 1];
  }

  /** A witness: a name with a comma, as it is written, reads as two. */
  lemma CommaSplits()
    ensures CSV(JoinComma(["select", "a, b"])) != ["select", "a, b"]
  {
    hide CSV;
    SplitJoin(["select", "a, b"]);
    assert FirstComma("a, b", false, false) == 1 by {
      assert "a, b"[1..] == ", b" && ", b"[0] == ',';
    }
  }

  function Trims(ps: seq<string>): (r: seq<string>)
    ensures |r| == |ps|
  {
    seq(|ps|, i requires 0 <= i < |ps| => TrimSpace(ps[i]))
  }

  lemma PlainStep(s: string, cur: string)
    requires s != "" && s[0] != '"' && s[0] != '\\'
    ensures var more := SplitOn(s[1..], ',');
      if s[0] == ',' then
        && SplitRest(s, cur, false, false) == [TrimSpace(cur)] + SplitRest(s[1..], "", false, false)
        && SplitOn(s, ',') == [""] + more
      else
        && SplitRest(s, cur, false, false) == SplitRest(s[1..], cur + [s[0]], false, false)
        && SplitOn(s, ',') == [[s[0]] + more[0]] + more[1..]
  {
    hide TrimSpace;
  }

  lemma TrimsMore(p: string, ps: seq<string>)
    ensures Trims([p] + ps) == [TrimSpace(p)] + Trims(ps)
  {
    hide TrimSpace;
  }

  /** Without quotes and backslashes a list is simply cut at its commas. */
  lemma {:induction false} PlainList(s: string, cur: string)
    requires '"' !in s && '\\' !in s
    ensures var parts := SplitOn(s, ',');
      SplitRest(s, cur, false, false) == Trims([cur + parts[0]] + parts[1..])
    decreases |s|
  {
    if s == "" {
      assert cur + "" == cur;
    } else {
      hide TrimSpace, SplitRest, SplitOn, Trims;
      var more := SplitOn(s[1..], ',');
      PlainStep(s, cur);
      if s[0] == ',' {
        PlainList(s[1..], "");
        TrimsMore(cur, more);
        assert "" + more[0] == more[0] && [more[0]] + more[1..] == more;
        assert ([""] + more)[1..] == more && cur + "" == cur;
      } else {
        PlainList(s[1..], cur + [s[0]]);
        assert cur + [s[0]] + more[0] == cur + ([s[0]] + more[0]);
        assert ([[s[0]] + more[0]] + more[1..])[1..] == more[1..];
      }
    }
  }

  lemma PlainCSV(s: string)
    requires '"' !in s && '\\' !in s
    ensures CSV(s) == Trims(SplitOn(s, ','))
  {
    var parts := SplitOn(s, ',');
    PlainList(s, "");
    assert "" + parts[0] == parts[0] && [parts[0]] + parts[1..] == parts;
  }

  predicate Ordinary(s: string) {
    '"' !in s && '\\' !in s
  }

  lemma {:induction false} InQuotes(x: string)
    requires Ordinary(x)
    ensures FirstComma(x, true, false) == |x| && After(x, true, false) == (true, false)
  {
    if x != "" {
      InQuotes(x[1..]);
    }
  }

  lemma {:induction false} OutsideQuotes(x: string)
    requires Ordinary(x) && ',' !in x
    ensures FirstComma(x, false, false) == |x| && After(x, false, false) == (false, false)
  {
    if x != "" {
      OutsideQuotes(x[1..]);
    }
  }

  lemma {:induction false} AfterConcat(p: string, t: string, quoted: bool, escaped: bool)
    ensures var n := After(p, quoted, escaped); After(p + t, quoted, escaped) == After(t, n.0, n.1)
    decreases |p|
  {
    if p == "" {
      assert p + t == t;
    } else {
      assert (p + t)[1..] == p[1..] + t;
      var n := Next(p[0], quoted, escaped);
      AfterConcat(p[1..], t, n.0, n.1);
    }
  }

  /** A comma between quotes, or behind a backslash, does not end a member; one anywhere else does. */
  lemma CommasInMembers(x: string, a: string, b: string)
    requires '"' !in x + a + b && '\\' !in x + a + b && ',' !in a + b
    ensures var q := "\"" + (x + "\""); FirstComma(q, false, false) == |q| && After(q, false, false) == (false, false)
    ensures var e := a + ("\\," + b); FirstComma(e, false, false) == |e| && After(e, false, false) == (false, false)
    ensures FirstComma(a + ("," + b), false, false) == |a|
  {
    hide FirstComma, After;
    InQuotes(x);
    OutsideQuotes(a);
    OutsideQuotes(b);
    Ends(b);
    CommaOf("\"", x + "\"", false, false);
    AfterConcat("\"", x + "\"", false, false);
    CommaOf(x, "\"", true, false);
    AfterConcat(x, "\"", true, false);
    CommaOf(a, "\\," + b, false, false);
    AfterConcat(a, "\\," + b, false, false);
    CommaOf("\\,", b, false, false);
    AfterConcat("\\,", b, false, false);
    CommaOf(a, "," + b, false, false);
  }

  /** The characters that quote, escape and separate. */
  lemma Ends(b: string)
    ensures FirstComma("\"", false, false) == FirstComma("\"", true, false) == 1
    ensures After("\"", false, false) == (true, false) && After("\"", true, false) == (false, false)
    ensures FirstComma("\\,", false, false) == 2 && After("\\,", false, false) == (false, false)
    ensures FirstComma("," + b, false, false) == 0
  {
    assert "\\,"[1..] == "," && ","[1..] == "" && "\""[1..] == "";
  }

  /** A list is split the same whatever spaces stand around it. */
  lemma {:induction false} TrailingSpaces(s: string, cur: string, quoted: bool, escaped: bool, post: string)
    requires forall i :: 0 <= i < |post| ==> IsSpace(post[i])
    ensures SplitRest(s + post, cur, quoted, escaped) == SplitRest(s, cur, quoted, escaped)
    decreases |s|
  {
    hide TrimSpace;
    if s == "" {
      assert s + post == post;
      OnlySpaces(post, quoted, escaped);
      SplitFirst(post, cur, quoted, escaped);
      assert post[..|post|] == post && "" + cur + post == cur + post;
      TrimPad("", cur, post);
    } else {
      assert (s + post)[1..] == s[1..] + post;
      if !escaped && s[0] == ',' && !quoted {
        TrailingSpaces(s[1..], "", false, false, post);
      } else {
        var n := Next(s[0], quoted, escaped);
        TrailingSpaces(s[1..], cur + [s[0]], n.0, n.1, post);
      }
    }
  }

  lemma {:induction false} OnlySpaces(s: string, quoted: bool, escaped: bool)
    requires forall i :: 0 <= i < |s| ==> IsSpace(s[i])
    ensures FirstComma(s, quoted, escaped) == |s|
    decreases |s|
  {
    if s != "" {
      var n := Next(s[0], quoted, escaped);
      OnlySpaces(s[1..], n.0, n.1);
    }
  }

  lemma {:induction false} LeadingSpaces(pre: string, s: string)
    requires forall i :: 0 <= i < |pre| ==> IsSpace(pre[i])
    ensures CSV(pre + s) == CSV(s)
  {
    hide CSV, TrimSpace;
    OnlySpaces(pre, false, false);
    NoQuotes(pre);
    CommaOf(pre, s, false, false);
    SplitAtComma(pre + s);
    SplitAtComma(s);
    var i := FirstComma(s, false, false);
    assert (pre + s)[..|pre| + i] == pre + s[..i] + "";
    TrimPad(pre, s[..i], "");
    if i < |s| {
      assert (pre + s)[|pre| + i + 1..] == s[i + 1..];
    }
  }

  lemma {:induction false} NoQuotes(s: string)
    requires forall i :: 0 <= i < |s| ==> IsSpace(s[i])
    ensures After(s, false, false) == (false, false)
  {
    if s != "" {
      NoQuotes(s[1..]);
    }
  }

  lemma TrimmedList(s: string)
    ensures CSV(TrimSpace(s)) == CSV(s)
  {
    hide SplitRest;
    var a, b := TrimShape(s);
    assert s == s[..a] + (s[a..b] + s[b..]);
    LeadingSpaces(s[..a], s[a..b] + s[b..]);
    TrailingSpaces(s[a..b], "", false, false, s[b..]);
  }

  // ---- group lines ----

  function CutAt(line: string, c: char): (i: nat)
    ensures i <= |line| && (i < |line| ==> line[i] == c) && forall j :: 0 <= j < i ==> line[j] != c
  {
    if line == "" || line[0] == c then 0 else 1 + CutAt(line[1..], c)
  }

  datatype GroupLine = Group(name: string, rest: string) | NotGroup

  function SplitGroupLine(line: string): GroupLine {
    var i := CutAt(line, '=');
    if i == |line| then NotGroup else Group(TrimSpace(line[..i]), TrimSpace(line[i + 1..]))
  }

  /** A group line is cut at its first equals sign; without one it is none. */
  lemma LineMeans(a: string, b: string)
    requires '=' !in a
    ensures SplitGroupLine(a + "=" + b) == Group(TrimSpace(a), TrimSpace(b)) && SplitGroupLine(a) == NotGroup
  {
    CutFound(a + "=" + b, a, b);
  }

  function GroupName(line: string): string {
    match SplitGroupLine(line)
    case NotGroup => ""
    case Group(name, _) => name
  }

  /** The line of a group with these members. */
  function GroupText(name: string, members: seq<string>): string {
    name + " = " + JoinComma(members)
  }

  /** A name a group line can have: trimmed, without an equals sign. */
  predicate IsName(name: string) {
    '=' !in name && TrimSpace(name) == name
  }

  lemma NameOfLine(line: string)
    ensures IsName(GroupName(line))
  {
    hide TrimSpace;
    if SplitGroupLine(line).Group? {
      var head := line[..CutAt(line, '=')];
      TrimTrimmed(head);
      TrimTrimmed(TrimSpace(head));
      var a, b := TrimShape(head);
      assert forall c :: c in TrimSpace(head) ==> c in head;
    } else {
      TrimTrimmed("");
    }
  }

  lemma CutFound(line: string, name: string, rest: string)
    requires line == name + "=" + rest && '=' !in name
    ensures CutAt(line, '=') == |name| && line[..|name|] == name && line[|name| + 1..] == rest
  {
    var i := CutAt(line, '=');
    assert line[|name|] == '=';
    assert forall j :: 0 <= j < |name| ==> line[j] == name[j];
  }

  /** A group line is split at the equals sign it was written with. */
  lemma GroupSplits(name: string, list: string)
    requires IsName(name)
    ensures SplitGroupLine(name + " = " + list) == Group(name, TrimSpace(list))
  {
    hide TrimSpace;
    var line := name + " = " + list;
    assert line == (name + " ") + "=" + (" " + list);
    CutFound(line, name + " ", " " + list);
    TrimPad("", name, " ");
    TrimPad(" ", list, "");
    assert "" + name + " " == name + " " && " " + list + "" == " " + list;
  }

  lemma GroupReads(name: string, members: seq<string>)
    requires IsName(name)
    ensures SplitGroupLine(GroupText(name, members)) == Group(name, TrimSpace(JoinComma(members)))
  {
    hide SplitGroupLine, TrimSpace, JoinComma, IsName;
    GroupSplits(name, JoinComma(members));
  }

  /** A client that splits a group line sees exactly the members it was written with if and only if they read back
      as a list. */
  lemma GroupReadsBack(name: string, members: seq<string>)
    requires IsName(name) && members != []
    ensures var g := SplitGroupLine(GroupText(name, members));
      g.Group? && g.name == name && (CSV(g.rest) == members <==> ReadsBack(members))
  {
    hide CSV, TrimSpace, ReadsBack;
    GroupReads(name, members);
    TrimmedList(JoinComma(members));
    SplitJoin(members);
  }

  const URL_TEST := "Auto - UrlTest"
  const SMART := "Auto - Smart"

  predicate IsAuto(name: string) {
    EqualFold(name, URL_TEST) || EqualFold(name, SMART)
  }

  /** The members after the first, with the remote group replaced by the two automatic ones. */
  function Replaced(ps: seq<string>): seq<string> {
    if ps == [] then []
    else (if ps[0] == "oixCloud" then [SMART, URL_TEST] else [ps[0]]) + Replaced(ps[1..])
  }

  predicate HasBlock(ps: seq<string>) {
    exists p :: p in ps && p != "oixCloud" && EqualFold(p, "Block")
  }

  function Missing(have: seq<string>, names: seq<string>): (r: seq<string>)
    ensures forall n :: n in r <==> n in names && n !in have
  {
    if names == [] then []
    else (if names[0] in have then [] else [names[0]]) + Missing(have, names[1..])
  }

  predicate GetsNames(parts: seq<string>) {
    parts != [] && Lower(parts[0]) == "select" && !HasBlock(parts[1..])
  }

  function ExpandMembers(parts: seq<string>, names: seq<string>): (r: seq<string>)
    requires parts != []
    ensures r != []
  {
    var kept := [parts[0]] + Replaced(parts[1..]);
    kept + (if GetsNames(parts) then Missing(kept, names) else [])
  }

  lemma AutoMeans(name: string)
    ensures IsAuto(name) <==> Lower(name) == "auto - urltest" || Lower(name) == "auto - smart"
  {
    assert Lower(URL_TEST) == "auto - urltest" && Lower(SMART) == "auto - smart";
  }

  lemma BlockByCase(ps: seq<string>)
    requires Lower("Block") == "block"
    ensures HasBlock(ps) <==> exists i :: 0 <= i < |ps| && Lower(ps[i]) == "block"
  {
    if i :| 0 <= i < |ps| && Lower(ps[i]) == "block" {
      assert ps[i] in ps && |ps[i]| == |Lower(ps[i])| == 5;
      assert ps[i] != "oixCloud";
    }
  }

  /** A group gets the mapping names exactly when it is a select group with no Block among its members, in any case. */
  lemma GetsNamesMeans(parts: seq<string>)
    requires parts != []
    ensures GetsNames(parts) <==>
      Lower(parts[0]) == "select" && forall i :: 1 <= i < |parts| ==> Lower(parts[i]) != "block"
  {
    assert Lower("Block") == "block";
    BlockByCase(parts[1..]);
    assert forall i :: 1 <= i < |parts| ==> parts[i] == parts[1..][i - 1];
  }

  /** Member by member: the remote group becomes the two automatic ones, any other stays; a name that is there already
      is not added; a member with an equals sign is an option. */
  lemma {:induction false} MembersOneByOne(a: seq<string>, b: seq<string>, p: string, have: seq<string>)
    ensures Replaced(a + b) == Replaced(a) + Replaced(b)
    ensures Replaced([p]) == if p == "oixCloud" then ["Auto - Smart", "Auto - UrlTest"] else [p]
    ensures Missing(have, a + b) == Missing(have, a) + Missing(have, b)
    ensures Missing(have, [p]) == if p in have then [] else [p]
    ensures Options(a + b) == Options(a) + Options(b)
    ensures Options([p]) == if '=' in p then [p] else []
  {
    if a == [] {
      assert a + b == b;
      assert Replaced([]) + Replaced(b) == Replaced(b) && Missing(have, []) + Missing(have, b) == Missing(have, b);
      assert Options([]) + Options(b) == Options(b);
      assert [p][1..] == [];
      assert Replaced([]) == [] && Missing(have, []) == [] && Options([]) == [];
    } else {
      assert (a + b)[1..] == a[1..] + b && (a + b)[0] == a[0];
      MembersOneByOne(a[1..], b, p, have);
      Assoc(if a[0] == "oixCloud" then [SMART, URL_TEST] else [a[0]], Replaced(a[1..]), Replaced(b));
      Assoc(if a[0] in have then [] else [a[0]], Missing(have, a[1..]), Missing(have, b));
      Assoc(if '=' in a[0] then [a[0]] else [], Options(a[1..]), Options(b));
    }
  }

  function ExpandOf(line: string, names: seq<string>): string {
    match SplitGroupLine(line)
    case NotGroup => line
    case Group(name, rest) =>
      if IsAuto(name) then line else GroupText(name, ExpandMembers(CSV(rest), names))
  }

  lemma {:induction false} ReplacedAppend(ps: seq<string>, p: string)
    ensures Replaced(ps + [p]) == Replaced(ps) + (if p == "oixCloud" then [SMART, URL_TEST] else [p])
  {
    if ps == [] {
      assert ps + [p] == [p];
      assert Replaced([p][1..]) == [];
    } else {
      assert (ps + [p])[1..] == ps[1..] + [p];
      ReplacedAppend(ps[1..], p);
      Assoc(if ps[0] == "oixCloud" then [SMART, URL_TEST] else [ps[0]], Replaced(ps[1..]),
            if p == "oixCloud" then [SMART, URL_TEST] else [p]);
    }
  }

  lemma {:induction false} MissingAppend(have: seq<string>, ns: seq<string>, n: string)
    ensures Missing(have, ns + [n]) == Missing(have, ns) + (if n in have then [] else [n])
  {
    if ns == [] {
      assert ns + [n] == [n];
      assert Missing(have, [n][1..]) == [];
    } else {
      assert (ns + [n])[1..] == ns[1..] + [n];
      MissingAppend(have, ns[1..], n);
      Assoc(if ns[0] in have then [] else [ns[0]], Missing(have, ns[1..]), if n in have then [] else [n]);
    }
  }

  method KeepMembers(parts: seq<string>) returns (kept: seq<string>, hasBlock: bool)
    requires parts != []
    ensures kept == [parts[0]] + Replaced(parts[1..])
    ensures hasBlock <==> HasBlock(parts[1..])
  {
    hide EqualFold, Replaced;
    hasBlock := false;
    kept := [parts[0]];
    NothingReplaced();
    assert parts[1..1] == [] && kept == [parts[0]] + [];
    for i := 1 to |parts|
      invariant kept == [parts[0]] + Replaced(parts[1..i])
      invariant hasBlock <==> HasBlock(parts[1..i])
    {
      var p := parts[i];
      ReplacedAppend(parts[1..i], p);
      assert parts[1..i + 1] == parts[1..i] + [p];
      Block(parts[1..i], p);
      if p == "oixCloud" {
        kept := kept + [SMART, URL_TEST];
        continue;
      }
      if EqualFold(p, "Block") {
        hasBlock := true;
      }
      kept := kept + [p];
    }
    assert parts[1..|parts|] == parts[1..];
  }

  lemma NothingReplaced()
    ensures Replaced([]) == []
  {
  }

  lemma Block(ps: seq<string>, p: string)
    ensures HasBlock(ps + [p]) <==> HasBlock(ps) || (p != "oixCloud" && EqualFold(p, "Block"))
  {
    hide EqualFold;
    assert forall x :: x in ps + [p] <==> x in ps || x == p;
  }

  lemma NothingMissing(have: seq<string>)
    ensures Missing(have, []) == []
  {
  }

  method AddMissing(have: seq<string>, names: seq<string>) returns (kept: seq<string>)
    ensures kept == have + Missing(have, names)
  {
    hide Missing;
    kept := have;
    NothingMissing(have);
    assert have + [] == have;
    for i := 0 to |names|
      invariant kept == have + Missing(have, names[..i])
    {
      MissingAppend(have, names[..i], names[i]);
      assert names[..i + 1] == names[..i] + [names[i]];
      assert Missing(have, names[..i]) + [] == Missing(have, names[..i]);
      if names[i] !in have {
        kept := kept + [names[i]];
      }
    }
    assert names[..|names|] == names;
  }

  method ExpandGroup(line: string, names: seq<string>) returns (r: string)
    ensures r == ExpandOf(line, names)
  {
    hide EqualFold, Lower, SplitGroupLine, CSV, Replaced, HasBlock, JoinComma;
    var g := SplitGroupLine(line);
    if g.NotGroup? {
      return line;
    }
    if EqualFold(g.name, URL_TEST) || EqualFold(g.name, SMART) {
      return line;
    }
    var parts := SplitCSV(g.rest);
    var kept, hasBlock := KeepMembers(parts);
    if Lower(parts[0]) == "select" && !hasBlock {
      kept := AddMissing(kept, names);
    } else {
      assert kept + [] == kept;
    }
    return GroupText(g.name, kept);
  }

  /** A select group without Block ends up with every mapping name; every group keeps its own members first,
      in order. */
  lemma ExpandedMembers(parts: seq<string>, names: seq<string>)
    requires parts != []
    ensures var gets := Lower(parts[0]) == "select" && forall i :: 1 <= i < |parts| ==> Lower(parts[i]) != "block";
      var kept := [parts[0]] + Replaced(parts[1..]);
      && kept <= ExpandMembers(parts, names)
      && (gets ==> forall n :: n in names ==> n in ExpandMembers(parts, names))
      && (!gets ==> ExpandMembers(parts, names) == kept)
    ensures forall p :: p in ExpandMembers(parts, names) ==>
      p in parts || p in names || p == "Auto - Smart" || p == "Auto - UrlTest"
  {
    GetsNamesMeans(parts);
    hide GetsNames, Lower;
    ReplacedFrom(parts[1..]);
  }

  lemma {:induction false} ReplacedFrom(ps: seq<string>)
    ensures forall p :: p in Replaced(ps) ==> p in ps || p == SMART || p == URL_TEST
    ensures forall p :: p in ps && p != "oixCloud" ==> p in Replaced(ps)
  {
    if ps != [] {
      ReplacedFrom(ps[1..]);
    }
  }

  /** A client that splits an expanded line sees the group's own name, and exactly the expanded members if and only
      if they read back as a list: the names of the mappings are written as they are. */
  lemma ExpandedLineReadsBack(line: string, names: seq<string>)
    requires SplitGroupLine(line).Group? && !IsAuto(GroupName(line))
    ensures var members := ExpandMembers(CSV(SplitGroupLine(line).rest), names);
      var g := SplitGroupLine(ExpandOf(line, names));
      g.Group? && g.name == GroupName(line) && (CSV(g.rest) == members <==> ReadsBack(members))
  {
    hide CSV, TrimSpace, ReadsBack, GroupText;
    NameOfLine(line);
    GroupReadsBack(GroupName(line), ExpandMembers(CSV(SplitGroupLine(line).rest), names));
  }

  function Options(ps: seq<string>): seq<string> {
    if ps == [] then [] else (if '=' in ps[0] then [ps[0]] else []) + Options(ps[1..])
  }

  lemma {:induction false} OptionsAppend(ps: seq<string>, p: string)
    ensures Options(ps + [p]) == Options(ps) + (if '=' in p then [p] else [])
  {
    if ps == [] {
      assert ps + [p] == [p];
      assert Options([p][1..]) == [];
    } else {
      assert (ps + [p])[1..] == ps[1..] + [p];
      OptionsAppend(ps[1..], p);
      Assoc(if '=' in ps[0] then [ps[0]] else [], Options(ps[1..]), if '=' in p then [p] else []);
    }
  }

  /** An automatic group: its kind, every mapping name, then the options it had. */
  function AutoMembers(parts: seq<string>, names: seq<string>): (r: seq<string>)
    requires parts != []
    ensures r != []
  {
    [parts[0]] + names + Options(parts[1..])
  }

  function AutoOf(line: string, names: seq<string>): string {
    match SplitGroupLine(line)
    case NotGroup => line
    case Group(name, rest) => GroupText(name, AutoMembers(CSV(rest), names))
  }

  /** What a client reads from a rewritten automatic group: the same name, and kind, mapping names and options if
      and only if they read back as a list. */
  lemma AutoReadsBack(line: string, names: seq<string>)
    requires SplitGroupLine(line).Group?
    ensures var parts := CSV(SplitGroupLine(line).rest);
      var members := [parts[0]] + names + Options(parts[1..]);
      var g := SplitGroupLine(AutoOf(line, names));
      g.Group? && g.name == GroupName(line) && (CSV(g.rest) == members <==> ReadsBack(members))
  {
    hide CSV, TrimSpace, ReadsBack, GroupText;
    NameOfLine(line);
    GroupReadsBack(GroupName(line), AutoMembers(CSV(SplitGroupLine(line).rest), names));
  }

  method RewriteAutoGroup(line: string, names: seq<string>) returns (r: string)
    ensures r == AutoOf(line, names)
  {
    hide TrimSpace, CSV;
    var g := SplitGroupLine(line);
    if g.NotGroup? {
      return line;
    }
    var parts := SplitCSV(g.rest);
    var out := [parts[0]] + names;
    ghost var head := out;
    assert Options(parts[1..1]) == [] && head + [] == head;
    for i := 1 to |parts|
      invariant out == head + Options(parts[1..i])
    {
      OptionsAppend(parts[1..i], parts[i]);
      assert parts[1..i + 1] == parts[1..i] + [parts[i]];
      if '=' in parts[i] {
        out := out + [parts[i]];
      }
    }
    assert parts[1..|parts|] == parts[1..];
    return GroupText(g.name, out);
  }
}
