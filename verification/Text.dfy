/** ASCII text: trimming, case, prefixes and suffixes. */
module Text {
  predicate IsSpace(c: char) {
    c == ' ' || '\t' <= c <= '\r'
  }

  function LowerChar(c: char): char {
    if 'A' <= c <= 'Z' then ((c as int) + 32) as char else c
  }

  /** Blanks, tabs, newlines, vertical tabs, form feeds and carriage returns. */
  lemma SpacesAre(c: char)
    ensures IsSpace(c) <==> c as int in {32, 9, 10, 11, 12, 13}
  {
  }

  const UPPER := "ABCDEFGHIJKLMNOPQRSTUVWXYZ"
  const LOWER := "abcdefghijklmnopqrstuvwxyz"

  /** Each capital becomes the small letter at its place in the alphabet; nothing else changes. */
  lemma LowerIs(c: char, i: nat)
    ensures i < 26 ==> LowerChar(UPPER[i]) == LOWER[i]
    ensures c !in UPPER ==> LowerChar(c) == c
  {
    Alphabets();
    if 'A' <= c <= 'Z' {
      assert UPPER[c as int - 65] == c;
    }
  }

  lemma Alphabets()
    ensures |UPPER| == |LOWER| == 26
    ensures forall i :: 0 <= i < 26 ==> UPPER[i] as int == 65 + i && LOWER[i] as int == 97 + i
  {
  }

  function Lower(s: string): (r: string)
    ensures |r| == |s|
  {
    seq(|s|, i requires 0 <= i < |s| => LowerChar(s[i]))
  }

  function TrimLeft(s: string): string {
    if s != "" && IsSpace(s[0]) then TrimLeft(s[1..]) else s
  }

  function TrimRight(s: string): string {
    if s != "" && IsSpace(s[|s| - 1]) then TrimRight(s[..|s| - 1]) else s
  }

  function TrimSpace(s: string): string {
    TrimRight(TrimLeft(s))
  }

  // ---- what trimming leaves ----

  predicate Trimmed(s: string) {
    s == "" || (!IsSpace(s[0]) && !IsSpace(s[|s| - 1]))
  }

  /** TrimLeft drops spaces up to the first character that is none. */
  lemma {:induction false} LeftShape(s: string) returns (a: nat)
    ensures a <= |s| && TrimLeft(s) == s[a..] && (a < |s| ==> !IsSpace(s[a]))
    ensures forall i :: 0 <= i < a ==> IsSpace(s[i])
  {
    if s != "" && IsSpace(s[0]) {
      var b := LeftShape(s[1..]);
      a := b + 1;
      assert s[1..][b..] == s[a..];
      assert forall i :: 1 <= i < a ==> s[i] == s[1..][i - 1];
    } else {
      a := 0;
    }
  }

  lemma {:induction false} RightShape(s: string) returns (b: nat)
    ensures b <= |s| && TrimRight(s) == s[..b] && (b > 0 ==> !IsSpace(s[b - 1]))
    ensures forall i :: b <= i < |s| ==> IsSpace(s[i])
  {
    if s != "" && IsSpace(s[|s| - 1]) {
      b := RightShape(s[..|s| - 1]);
      assert s[..|s| - 1][..b] == s[..b];
    } else {
      b := |s|;
    }
  }

  /** TrimSpace leaves a stretch of the text with nothing but spaces around it. */
  lemma TrimShape(s: string) returns (a: nat, b: nat)
    ensures a <= b <= |s| && TrimSpace(s) == s[a..b] && Trimmed(s[a..b])
    ensures forall i :: 0 <= i < a ==> IsSpace(s[i])
    ensures forall i :: b <= i < |s| ==> IsSpace(s[i])
  {
    a := LeftShape(s);
    var c := RightShape(s[a..]);
    b := a + c;
    assert s[a..][..c] == s[a..b];
    assert forall i :: b <= i < |s| ==> s[i] == s[a..][i - a];
  }

  lemma TrimTrimmed(s: string)
    ensures Trimmed(TrimSpace(s)) && (Trimmed(s) <==> TrimSpace(s) == s)
  {
    var a, b := TrimShape(s);
    if Trimmed(s) && s != "" {
      assert a == 0 && b == |s|;
      assert s[0..|s|] == s;
    }
  }

  /** Two texts with the same stretch between spaces trim to the same. */
  lemma TrimUnique(s: string, a: nat, b: nat)
    requires a <= b <= |s| && Trimmed(s[a..b])
    requires forall i :: 0 <= i < a || b <= i < |s| ==> IsSpace(s[i])
    ensures TrimSpace(s) == s[a..b]
  {
    var c, d := TrimShape(s);
    if a < b {
      assert s[a] == s[a..b][0] && s[b - 1] == s[a..b][b - a - 1];
      if c < d {
        assert s[c] == s[c..d][0] && s[d - 1] == s[c..d][d - c - 1];
      }
    }
  }

  /** Spaces around a text do not matter. */
  lemma TrimPad(pre: string, s: string, post: string)
    requires forall i :: 0 <= i < |pre| ==> IsSpace(pre[i])
    requires forall i :: 0 <= i < |post| ==> IsSpace(post[i])
    ensures TrimSpace(pre + s + post) == TrimSpace(s)
  {
    var a, b := TrimShape(s);
    var t := pre + s + post;
    assert t[|pre| + a..|pre| + b] == s[a..b];
    forall i | 0 <= i < |pre| + a || |pre| + b <= i < |t|
      ensures IsSpace(t[i])
    {
      if i < |pre| {
        assert t[i] == pre[i];
      } else if i < |pre| + |s| {
        assert t[i] == s[i - |pre|];
      } else {
        assert t[i] == post[i - |pre| - |s|];
      }
    }
    TrimUnique(t, |pre| + a, |pre| + b);
  }

  predicate HasPrefix(s: string, p: string) {
    p <= s
  }

  predicate HasSuffix(s: string, p: string) {
    |p| <= |s| && s[|s| - |p|..] == p
  }

  predicate EqualFold(a: string, b: string) {
    Lower(a) == Lower(b)
  }

  lemma PrefixMeans(s: string, p: string, rest: string)
    ensures s == p + rest ==> HasPrefix(s, p)
    ensures s == rest + p ==> HasSuffix(s, p)
    ensures HasPrefix(s, p) ==> |p| <= |s| && forall i :: 0 <= i < |p| ==> s[i] == p[i]
    ensures HasSuffix(s, p) ==> |p| <= |s| && forall i :: 0 <= i < |p| ==> s[|s| - |p| + i] == p[i]
  {
  }

  /** Two texts are the same but for case, place by place. */
  lemma FoldMeans(a: string, b: string)
    ensures EqualFold(a, b) <==> |a| == |b| && forall i :: 0 <= i < |a| ==> LowerChar(a[i]) == LowerChar(b[i])
  {
    if EqualFold(a, b) {
      assert |Lower(a)| == |Lower(b)|;
      assert forall i :: 0 <= i < |a| ==> Lower(a)[i] == LowerChar(a[i]) && Lower(b)[i] == LowerChar(b[i]);
    }
  }
}
