/** The few text operations the scripts use, with a character-level meaning (ASCII). */
module PyText {

  predicate StartsWith(s: string, p: string) { p <= s }

  predicate EndsWith(s: string, p: string) {
    |p| <= |s| && StartsWith(s[|s| - |p|..], p)
  }

  lemma StartsWithSlice(s: string, p: string)
    ensures StartsWith(s, p) <==> |p| <= |s| && s[..|p|] == p
  {
  }

  lemma EndsWithIs(s: string, p: string)
    ensures EndsWith(s, p) <==> exists pre :: s == pre + p
  {
    if EndsWith(s, p) {
      assert s == s[..|s| - |p|] + p;
    }
    if pre :| s == pre + p { assert s[|s| - |p|..] == p; }
  }

  lemma EndsWithLast(s: string, p: string)
    requires p != "" && EndsWith(s, p)
    ensures |p| <= |s| && s[|s| - 1] == p[|p| - 1]
  {
    var t := s[|s| - |p|..];
    StartsWithSlice(t, p);
    assert t == t[..|p|];
  }

  const UPPER := "ABCDEFGHIJKLMNOPQRSTUVWXYZ"
  const LOWER := "abcdefghijklmnopqrstuvwxyz"

  function LowerChar(c: char): char {
    if 'A' <= c <= 'Z' then c - 'A' + 'a' else c
  }

  lemma LowerCases(c: char)
    ensures forall i :: 0 <= i < 26 && c == UPPER[i] ==> LowerChar(c) == LOWER[i]
    ensures c !in UPPER ==> LowerChar(c) == c
  {
    if 'A' <= c <= 'Z' { assert UPPER[c as int - 'A' as int] == c; }
  }

  function Lower(s: string): (r: string)
    ensures |r| == |s| && forall i :: 0 <= i < |s| ==> r[i] == LowerChar(s[i])
  {
    if s == "" then "" else [LowerChar(s[0])] + Lower(s[1..])
  }

  function ReplaceChar(s: string, a: char, b: char): (r: string)
    ensures |r| == |s| && forall i :: 0 <= i < |s| ==> r[i] == if s[i] == a then b else s[i]
  {
    if s == "" then "" else [if s[0] == a then b else s[0]] + ReplaceChar(s[1..], a, b)
  }

  /** ASCII white space: blank, tab to carriage return, and the four separators. */
  predicate IsSpace(c: char) { c == ' ' || '\t' <= c <= '\r' || '\U{1C}' <= c <= '\U{1F}' }

  lemma WhiteSpace(c: char)
    ensures IsSpace(c) <==> c in " \t\n\U{0B}\U{0C}\r\U{1C}\U{1D}\U{1E}\U{1F}"
  {
  }

  function LStrip(s: string): string {
    if s != "" && IsSpace(s[0]) then LStrip(s[1..]) else s
  }

  function RStrip(s: string): string {
    if s != "" && IsSpace(s[|s| - 1]) then RStrip(s[..|s| - 1]) else s
  }

  function Strip(s: string): string { RStrip(LStrip(s)) }

  /** `s[:n]` */
  function Prefix(s: string, n: nat): (r: string)
    ensures r <= s && (|r| == n || (|s| < n && r == s))
  {
    if |s| <= n then s else s[..n]
  }

  /** Python's `x or y` on text. */
  function Or(x: string, y: string): (r: string)
    ensures r in {x, y} && (r == "" ==> x == "" && y == "") && (x != "" ==> r == x)
  {
    if x != "" then x else y
  }

  lemma StartsWithConcat(p: string, t: string)
    ensures StartsWith(p + t, p)
  {
    StartsWithSlice(p + t, p);
    assert (p + t)[..|p|] == p;
  }

  lemma {:induction false} LStripped(s: string)
    ensures var t := LStrip(s); |t| <= |s| && (t == "" || !IsSpace(t[0]))
  {
    if s == "" || !IsSpace(s[0]) {
    } else {
      LStripped(s[1..]);
    }
  }

  lemma {:induction false} RStripped(s: string)
    ensures var t := RStrip(s); |t| <= |s| && t == s[..|t|] && (t == "" || !IsSpace(t[|t| - 1]))
  {
    if s == "" || !IsSpace(s[|s| - 1]) {
    } else {
      RStripped(s[..|s| - 1]);
    }
  }

  /** Text that neither starts nor ends with white space is already stripped. */
  lemma StripPlain(s: string)
    requires s != "" ==> !IsSpace(s[0]) && !IsSpace(s[|s| - 1])
    ensures Strip(s) == s
  {
  }

  /** What stripping means: only white space is cut off, and none is left at the ends. */
  ghost predicate IsStripped(t: string, s: string) {
    && (t != "" ==> !IsSpace(t[0]) && !IsSpace(t[|t| - 1]))
    && exists i, j :: 0 <= i <= j <= |s| && t == s[i..j]
         && (forall k :: 0 <= k < i || j <= k < |s| ==> IsSpace(s[k]))
  }

  lemma StripIs(s: string)
    ensures IsStripped(Strip(s), s)
  {
    LStripped(s);
    LCut(s);
    RStripped(LStrip(s));
    RCut(LStrip(s));
    var i := |s| - |LStrip(s)|;
    var j := i + |Strip(s)|;
    assert Strip(s) == s[i..j];
    forall k | 0 <= k < i || j <= k < |s| ensures IsSpace(s[k]) {
      if j <= k { assert s[k] == LStrip(s)[k - i]; }
    }
    assert Strip(s) != "" ==> Strip(s)[0] == LStrip(s)[0];
  }

  lemma {:induction false} LCut(s: string)
    ensures var i := |s| - |LStrip(s)|; 0 <= i && LStrip(s) == s[i..] && forall k :: 0 <= k < i ==> IsSpace(s[k])
  {
    if s == "" || !IsSpace(s[0]) {
    } else {
      LCut(s[1..]);
    }
  }

  lemma {:induction false} RCut(s: string)
    ensures var n := |RStrip(s)|; n <= |s| && forall k :: n <= k < |s| ==> IsSpace(s[k])
  {
    if s == "" || !IsSpace(s[|s| - 1]) {
    } else {
      RCut(s[..|s| - 1]);
    }
  }

  lemma StripIdempotent(s: string)
    ensures Strip(Strip(s)) == Strip(s)
  {
    LStripped(s);
    RStripped(LStrip(s));
    var t := Strip(s);
    assert t != "" ==> t[0] == LStrip(s)[0];
    assert LStrip(t) == t;
    assert RStrip(t) == t;
  }

  /** `p in s` on text. */
  predicate Contains(s: string, p: string) {
    exists i :: 0 <= i <= |s| && StartsWith(s[i..], p)
  }

  lemma ContainsIs(s: string, p: string)
    ensures Contains(s, p) <==> exists pre, post :: s == pre + p + post
  {
    if Contains(s, p) {
      var i :| 0 <= i <= |s| && StartsWith(s[i..], p);
      assert s == s[..i] + p + s[i + |p|..];
    }
    if pre, post :| s == pre + p + post {
      assert s[|pre|..] == p + post;
      assert StartsWith(s[|pre|..], p);
    }
  }

  /** Characters before the first white space. */
  function FirstWord(s: string): (w: string)
    ensures |w| <= |s|
    ensures s != "" && !IsSpace(s[0]) ==> w != ""
  {
    if s == "" || IsSpace(s[0]) then "" else [s[0]] + FirstWord(s[1..])
  }

  /** `s.split()` */
  function Words(s: string): seq<string> {
    if s == "" then []
    else if IsSpace(s[0]) then Words(s[1..])
    else [FirstWord(s)] + Words(s[|FirstWord(s)|..])
  }

  /** Words are separated by white space: the first one, then those of what follows it. */
  lemma {:induction false} WordsOfSpaced(pre: string, w: string, post: string)
    requires (forall c :: c in pre ==> IsSpace(c)) && w != "" && (forall c :: c in w ==> !IsSpace(c))
    requires post != "" ==> IsSpace(post[0])
    ensures Words(pre + (w + post)) == [w] + Words(post)
  {
    var s := pre + (w + post);
    if pre == "" {
      FirstWordIs(w, post);
      assert s == w + post && s[0] in w && s[|w|..] == post;
    } else {
      assert s[0] == pre[0] && s[1..] == pre[1..] + (w + post);
      WordsOfSpaced(pre[1..], w, post);
    }
  }

  lemma {:induction false} WordsOfSpace(s: string)
    requires forall c :: c in s ==> IsSpace(c)
    ensures Words(s) == []
  {
    if s == "" {
    } else {
      WordsOfSpace(s[1..]);
    }
  }

  lemma {:induction false} FirstWordIs(w: string, post: string)
    requires (forall c :: c in w ==> !IsSpace(c)) && (post != "" ==> IsSpace(post[0]))
    ensures FirstWord(w + post) == w
  {
    if w == "" {
      assert w + post == post;
    } else {
      assert (w + post)[0] in w && (w + post)[1..] == w[1..] + post;
      FirstWordIs(w[1..], post);
    }
  }

  predicate IsWord(w: string) { w != "" && forall c :: c in w ==> !IsSpace(c) }

  /** Splitting joined words gives them back. */
  lemma {:induction false} WordsOfJoined(ws: seq<string>)
    requires forall w :: w in ws ==> IsWord(w)
    ensures Words(JoinSpaces(ws)) == ws
  {
    if ws == [] {
    } else if |ws| == 1 {
      assert ws[0] in ws && "" + (ws[0] + "") == ws[0];
      WordsOfSpaced("", ws[0], "");
    } else {
      var post := " " + JoinSpaces(ws[1..]);
      assert ws[0] in ws;
      assert JoinSpaces(ws) == "" + (ws[0] + post);
      WordsOfSpaced("", ws[0], post);
      assert post[1..] == JoinSpaces(ws[1..]);
      WordsOfJoined(ws[1..]);
    }
  }

  lemma {:induction false} WordsAreWords(s: string)
    ensures forall w :: w in Words(s) ==> IsWord(w)
  {
    if s == "" {
    } else if IsSpace(s[0]) {
      WordsAreWords(s[1..]);
    } else {
      FirstWordPlain(s);
      WordsAreWords(s[|FirstWord(s)|..]);
    }
  }

  lemma {:induction false} FirstWordPlain(s: string)
    ensures forall c :: c in FirstWord(s) ==> !IsSpace(c)
  {
    if s == "" || IsSpace(s[0]) {
    } else {
      FirstWordPlain(s[1..]);
    }
  }

  /** `" ".join(words)` */
  function JoinSpaces(words: seq<string>): string {
    if words == [] then "" else if |words| == 1 then words[0] else words[0] + " " + JoinSpaces(words[1..])
  }
}
