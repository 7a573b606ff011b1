/** Recovering the last traced JSON object from mixed standard output by matching braces. */
module BraceScanner {
  import opened Options

  /** What `json.loads` makes of a piece of text. */
  datatype Json = Malformed | NotADict | Dict(traceId: string, body: string)

  /** Nesting depth after reading `s`; a closing brace at depth zero is ignored. */
  function Depth(s: string): nat {
    if s == "" then 0
    else
      var d, c := Depth(s[..|s| - 1]), s[|s| - 1];
      if c == '{' then d + 1 else if c == '}' && d > 0 then d - 1 else d
  }

  /** `s[i..j]` opens at depth zero and first returns to it at `j`. */
  ghost predicate Segment(s: string, i: int, j: int) {
    && 0 <= i < j <= |s|
    && s[i] == '{' && Depth(s[..i]) == 0 && Depth(s[..j]) == 0
    && forall k :: i < k < j ==> Depth(s[..k]) > 0
  }

  /** The position of the top-level brace still open after `s`. */
  function Open(s: string): int {
    if s == "" then -1
    else if s[|s| - 1] == '{' && Depth(s[..|s| - 1]) == 0 then |s| - 1
    else Open(s[..|s| - 1])
  }

  /** The pieces of `s` handed to the JSON parser, in order. */
  function Candidates(s: string): seq<(int, int)> {
    if s == "" then []
    else
      var t := s[..|s| - 1];
      Candidates(t) + (if s[|s| - 1] == '}' && Depth(t) == 1 then [(Open(t), |s|)] else [])
  }

  /** While something is open, the depth has been positive since `Open(s)`. */
  lemma {:induction false} OpenIsOpen(s: string)
    requires Depth(s) > 0
    ensures var i := Open(s);
      0 <= i < |s| && s[i] == '{' && Depth(s[..i]) == 0 && forall k :: i < k <= |s| ==> Depth(s[..k]) > 0
  {
    var t := s[..|s| - 1];
    assert s[..|s|] == s;
    if Depth(t) <= 0 {
    } else {
      OpenIsOpen(t);
      forall k | Open(t) < k <= |s| ensures Depth(s[..k]) > 0 {
        if k <= |t| { assert s[..k] == t[..k]; }
      }
      assert s[..Open(t)] == t[..Open(t)];
    }
  }

  /** The candidates are exactly the top-level balanced segments. */
  lemma {:induction false} CandidatesExact(s: string, i: int, j: int)
    ensures (i, j) in Candidates(s) <==> Segment(s, i, j)
  {
    if s == "" {
    } else {
      var t := s[..|s| - 1];
      CandidatesExact(t, i, j);
      SegmentInPrefix(s, i, j);
      if Depth(t) == 1 && s[|s| - 1] == '}' {
        LastSegment(s, i);
      } else {
        NoLastSegment(s, i);
      }
    }
  }

  lemma SegmentInPrefix(s: string, i: int, j: int)
    requires s != ""
    ensures Segment(s, i, j) && j < |s| <==> Segment(s[..|s| - 1], i, j)
  {
    var t := s[..|s| - 1];
    assert forall k :: 0 <= k <= |t| ==> s[..k] == t[..k];
  }

  /** A segment ends at the end of the text only if its last character closes the only open brace. */
  lemma NoLastSegment(s: string, i: int)
    requires s != "" && !(Depth(s[..|s| - 1]) == 1 && s[|s| - 1] == '}')
    ensures !Segment(s, i, |s|)
  {
    var t := s[..|s| - 1];
    assert s[..|s|] == s;
    assert Segment(s, i, |s|) ==> Depth(t) > 0 || i == |t|;
  }

  lemma LastSegment(s: string, i: int)
    requires s != "" && s[|s| - 1] == '}' && Depth(s[..|s| - 1]) == 1
    ensures Segment(s, i, |s|) <==> i == Open(s[..|s| - 1])
  {
    var t := s[..|s| - 1];
    OpenIsOpen(t);
    assert s[..|s|] == s;
    forall k | 0 <= k <= |t| ensures s[..k] == t[..k] {}
    if Segment(s, i, |s|) {
      var a, b := Depth(s[..i]), Depth(s[..Open(t)]);
    }
  }

  /** Two top-level segments do not overlap. */
  lemma SegmentsDisjoint(s: string, i: int, j: int, k: int, l: int)
    requires Segment(s, i, j) && Segment(s, k, l)
    ensures (i, j) == (k, l) || j <= k || l <= i
  {
    var a, b, c, d := Depth(s[..i]), Depth(s[..j]), Depth(s[..k]), Depth(s[..l]);
  }

  lemma {:induction false} CandidatesOrdered(s: string)
    ensures forall a, b :: 0 <= a < b < |Candidates(s)| ==> Candidates(s)[a].1 <= Candidates(s)[b].0
  {
    if s == "" {
    } else {
      var t := s[..|s| - 1];
      CandidatesOrdered(t);
      if s[|s| - 1] == '}' && Depth(t) == 1 {
        var c := Candidates(s);
        forall a | 0 <= a < |c| - 1 ensures c[a].1 <= Open(t) {
          assert c[a] in c && c[|c| - 1] in c && c[a] in Candidates(t);
          CandidatesExact(s, c[a].0, c[a].1);
          CandidatesExact(t, c[a].0, c[a].1);
          CandidatesExact(s, Open(t), |s|);
          SegmentsDisjoint(s, c[a].0, c[a].1, Open(t), |s|);
        }
      }
    }
  }

  // ---------- the scanner ----------

  function Traced(text: string, parse: string -> Json): Option<Json> {
    var j := parse(text);
    if j.Dict? && j.traceId != "" then Some(j) else None
  }

  function LastTraced(s: string, c: seq<(int, int)>, parse: string -> Json): Option<Json>
    requires forall p :: p in c ==> 0 <= p.0 <= p.1 <= |s|
  {
    if c == [] then None
    else
      var p := c[|c| - 1];
      var last := Traced(s[p.0..p.1], parse);
      if last.Some? then last else LastTraced(s, c[..|c| - 1], parse)
  }

  lemma CandidateBounds(s: string)
    ensures forall p :: p in Candidates(s) ==> 0 <= p.0 <= p.1 <= |s|
  {
    forall p | p in Candidates(s) ensures 0 <= p.0 <= p.1 <= |s| { CandidatesExact(s, p.0, p.1); }
  }

  /** The last top-level segment that parses to an object with a trace id. */
  function Recovered(s: string, parse: string -> Json): Option<Json> {
    CandidateBounds(s);
    LastTraced(s, Candidates(s), parse)
  }

  /** A segment whose text parses to an object with a trace id. */
  ghost predicate TracedSegment(s: string, i: int, k: int, parse: string -> Json, j: Json) {
    Segment(s, i, k) && parse(s[i..k]) == j && j.Dict? && j.traceId != ""
  }

  /** The last of the given segments that is traced stands at `a`. */
  ghost predicate IsLastTraced(s: string, c: seq<(int, int)>, parse: string -> Json, a: int, j: Json) {
    && 0 <= a < |c| && TracedSegment(s, c[a].0, c[a].1, parse, j)
    && forall b, k :: a < b < |c| ==> !TracedSegment(s, c[b].0, c[b].1, parse, k)
  }

  lemma TracedIff(s: string, i: int, k: int, parse: string -> Json, j: Json)
    requires Segment(s, i, k)
    ensures Traced(s[i..k], parse) == Some(j) <==> TracedSegment(s, i, k, parse, j)
  {
  }

  ghost predicate AllSegments(s: string, c: seq<(int, int)>) {
    forall a :: 0 <= a < |c| ==> Segment(s, c[a].0, c[a].1)
  }

  lemma SkipLast(s: string, c: seq<(int, int)>, last: (int, int), parse: string -> Json, a: int, j: Json)
    requires c != [] && c[|c| - 1] == last && IsLastTraced(s, c[..|c| - 1], parse, a, j)
    requires forall k :: !TracedSegment(s, last.0, last.1, parse, k)
    ensures IsLastTraced(s, c, parse, a, j)
  {
    var t := c[..|c| - 1];
    assert t[a] == c[a];
    forall b, k | a < b < |c| ensures !TracedSegment(s, c[b].0, c[b].1, parse, k) {
      if b < |t| { assert t[b] == c[b]; }
    }
  }

  lemma {:induction false} LastTracedIs(s: string, c: seq<(int, int)>, parse: string -> Json)
    requires AllSegments(s, c) && forall p :: p in c ==> 0 <= p.0 <= p.1 <= |s|
    ensures var best := LastTraced(s, c, parse);
      if best.Some? then exists a :: IsLastTraced(s, c, parse, a, best.value)
      else forall b, j :: 0 <= b < |c| ==> !TracedSegment(s, c[b].0, c[b].1, parse, j)
  {
    if c == [] {
    } else {
      var n, best := |c| - 1, LastTraced(s, c, parse);
      var t := c[..n];
      LastTracedIs(s, t, parse);
      forall j ensures Traced(s[c[n].0..c[n].1], parse) == Some(j) <==> TracedSegment(s, c[n].0, c[n].1, parse, j) {
        TracedIff(s, c[n].0, c[n].1, parse, j);
      }
      if Traced(s[c[n].0..c[n].1], parse).Some? {
        assert IsLastTraced(s, c, parse, n, best.value);
      } else if best.Some? {
        var a :| IsLastTraced(s, t, parse, a, best.value);
        SkipLast(s, c, c[n], parse, a, best.value);
      } else {
        forall b, j | 0 <= b < |c| ensures !TracedSegment(s, c[b].0, c[b].1, parse, j) {
          if b < n { assert t[b] == c[b]; }
        }
      }
    }
  }

  /** What is recovered, without the scanner: the object of the last top-level segment that parses to an
      object with a trace id, and nothing exactly if there is no such segment. */
  lemma RecoveredIs(s: string, parse: string -> Json)
    ensures Recovered(s, parse).None? <==> forall i, k, j :: !TracedSegment(s, i, k, parse, j)
    ensures Recovered(s, parse).Some? ==> exists i, k ::
      TracedSegment(s, i, k, parse, Recovered(s, parse).value)
      && forall l, m, j :: k <= l ==> !TracedSegment(s, l, m, parse, j)
  {
    var c := Candidates(s);
    CandidateBounds(s);
    forall a | 0 <= a < |c| ensures Segment(s, c[a].0, c[a].1) {
      assert c[a] in c;
      CandidatesExact(s, c[a].0, c[a].1);
    }
    LastTracedIs(s, c, parse);
    CandidatesOrdered(s);
    forall i, k, j | TracedSegment(s, i, k, parse, j) ensures exists b :: 0 <= b < |c| && c[b] == (i, k) {
      CandidatesExact(s, i, k);
    }
    if Recovered(s, parse).Some? {
      var a :| IsLastTraced(s, c, parse, a, Recovered(s, parse).value);
      forall l, m, j | c[a].1 <= l ensures !TracedSegment(s, l, m, parse, j) {
        forall b | 0 <= b <= a ensures c[b] != (l, m) { StartsBefore(s, b, a); }
      }
    }
  }

  lemma StartsBefore(s: string, b: int, a: int)
    requires 0 <= b <= a < |Candidates(s)|
    ensures Candidates(s)[b].0 < Candidates(s)[a].1
  {
    var c := Candidates(s);
    CandidatesOrdered(s);
    assert c[a] in c && c[b] in c;
    CandidatesExact(s, c[a].0, c[a].1);
    CandidatesExact(s, c[b].0, c[b].1);
  }

  lemma {:induction false} LastTracedPrefix(s: string, t: string, c: seq<(int, int)>, parse: string -> Json)
    requires t <= s && forall p :: p in c ==> 0 <= p.0 <= p.1 <= |t|
    ensures LastTraced(s, c, parse) == LastTraced(t, c, parse)
  {
    if c == [] {
    } else {
      var p := c[|c| - 1];
      assert p in c;
      assert s[p.0..p.1] == t[p.0..p.1];
      LastTracedPrefix(s, t, c[..|c| - 1], parse);
    }
  }

  /** `_last_json_object` */
  method LastJsonObject(stdout: string, parse: string -> Json) returns (best: Option<Json>)
    ensures best == Recovered(stdout, parse)
  {
    best := None;
    var depth: nat, start := 0, -1;
    assert stdout[..0] == "";
    for index := 0 to |stdout|
      invariant depth == Depth(stdout[..index]) && start == Open(stdout[..index])
      invariant best == Recovered(stdout[..index], parse)
    {
      var c := stdout[index];
      ghost var t, s := stdout[..index], stdout[..index + 1];
      assert s[..|s| - 1] == t && s[|s| - 1] == c;
      ScanStep(s, parse);
      if c == '{' {
        if depth == 0 { start := index; }
        depth := depth + 1;
      } else if c == '}' && depth > 0 {
        depth := depth - 1;
        if depth == 0 {
          assert start >= 0 && s[start..] == stdout[start..index + 1];
          var parsed := parse(stdout[start..index + 1]);
          if parsed.Malformed? {
            continue;
          }
          if parsed.Dict? && parsed.traceId != "" { best := Some(parsed); }
        }
      }
    }
    assert stdout[..|stdout|] == stdout;
  }

  lemma ScanStep(s: string, parse: string -> Json)
    requires s != ""
    ensures var t := s[..|s| - 1];
      if s[|s| - 1] == '}' && Depth(t) == 1 then
        && 0 <= Open(t) < |t|
        && var last := Traced(s[Open(t)..], parse);
          Recovered(s, parse) == if last.Some? then last else Recovered(t, parse)
      else Recovered(s, parse) == Recovered(t, parse)
  {
    var t := s[..|s| - 1];
    if Depth(t) == 1 {
      OpenIsOpen(t);
      assert s[Open(t)..] == s[Open(t)..|s|];
    }
    CandidateBounds(t);
    LastTracedPrefix(s, t, Candidates(t), parse);
    var c := Candidates(s);
    if s[|s| - 1] == '}' && Depth(t) == 1 { assert c[..|c| - 1] == Candidates(t); } else { assert c == Candidates(t); }
  }

  // ---------- concatenated output ----------

  lemma {:induction false} DepthConcat(s: string, t: string)
    requires Depth(s) == 0
    ensures Depth(s + t) == Depth(t)
  {
    if t == "" {
      assert s + t == s;
    } else {
      assert (s + t)[..|s + t| - 1] == s + t[..|t| - 1];
      DepthConcat(s, t[..|t| - 1]);
    }
  }

  function Shift(c: seq<(int, int)>, n: int): seq<(int, int)> {
    if c == [] then [] else Shift(c[..|c| - 1], n) + [(c[|c| - 1].0 + n, c[|c| - 1].1 + n)]
  }

  lemma {:induction false} OpenConcat(s: string, t: string)
    requires Depth(s) == 0 && Depth(t) > 0
    ensures Open(s + t) == |s| + Open(t)
  {
    var u := t[..|t| - 1];
    assert (s + t)[..|s + t| - 1] == s + u;
    DepthConcat(s, u);
    if Depth(u) <= 0 {
    } else {
      OpenConcat(s, u);
    }
  }

  lemma {:induction false} CandidatesConcat(s: string, t: string)
    requires Depth(s) == 0
    ensures Candidates(s + t) == Candidates(s) + Shift(Candidates(t), |s|)
  {
    if t == "" {
      assert s + t == s && Candidates(s) + [] == Candidates(s);
    } else {
      var u := t[..|t| - 1];
      assert (s + t)[..|s + t| - 1] == s + u;
      DepthConcat(s, u);
      CandidatesConcat(s, u);
      if t[|t| - 1] == '}' && Depth(u) == 1 {
        OpenConcat(s, u);
        var c := Candidates(t);
        assert c[..|c| - 1] == Candidates(u);
      } else {
        assert Candidates(t) == Candidates(u);
      }
    }
  }

  lemma ShiftBounds(c: seq<(int, int)>, s: string, t: string)
    requires forall p :: p in c ==> 0 <= p.0 <= p.1 <= |t|
    ensures forall p :: p in Shift(c, |s|) ==> 0 <= p.0 <= p.1 <= |s + t|
  {
    if c != [] {
      assert c == c[..|c| - 1] + [c[|c| - 1]];
      ShiftBounds(c[..|c| - 1], s, t);
    }
  }

  lemma {:induction false} LastTracedShifted(s: string, t: string, b: seq<(int, int)>, c: seq<(int, int)>,
                                             parse: string -> Json)
    requires forall p :: p in b ==> 0 <= p.0 <= p.1 <= |s|
    requires forall p :: p in c ==> 0 <= p.0 <= p.1 <= |t|
    ensures forall p :: p in b + Shift(c, |s|) ==> 0 <= p.0 <= p.1 <= |s + t|
    ensures LastTraced(s + t, b + Shift(c, |s|), parse)
         == if LastTraced(t, c, parse).Some? then LastTraced(t, c, parse) else LastTraced(s, b, parse)
  {
    ShiftBounds(c, s, t);
    if c == [] {
      assert b + Shift(c, |s|) == b;
      LastTracedPrefix(s + t, s, b, parse);
    } else {
      var p, c' := c[|c| - 1], c[..|c| - 1];
      assert p in c;
      LastTracedShifted(s, t, b, c', parse);
      var all := b + Shift(c, |s|);
      assert all[..|all| - 1] == b + Shift(c', |s|);
      assert (s + t)[p.0 + |s|..p.1 + |s|] == t[p.0..p.1];
    }
  }

  /** Output that ends at depth zero can be scanned apart from what follows it. */
  lemma RecoveredConcat(s: string, t: string, parse: string -> Json)
    requires Depth(s) == 0
    ensures Recovered(s + t, parse) == if Recovered(t, parse).Some? then Recovered(t, parse) else Recovered(s, parse)
  {
    CandidateBounds(s);
    CandidateBounds(t);
    CandidatesConcat(s, t);
    LastTracedShifted(s, t, Candidates(s), Candidates(t), parse);
  }

  /** A printed object is handed to the parser whole exactly when the output before it is at
      depth zero and its own braces balance only at its end, braces inside strings included. */
  lemma ObjectIsCandidateIff(before: string, o: string, after: string)
    requires o != "" && o[0] == '{'
    ensures (|before|, |before| + |o|) in Candidates(before + o + after) <==> Depth(before) == 0 && Segment(o, 0, |o|)
  {
    var s, n := before + o + after, |before|;
    CandidatesExact(s, n, n + |o|);
    assert s[..n] == before && s[n] == '{';
    if Depth(before) == 0 {
      forall k | 0 <= k <= |o| ensures Depth(s[..n + k]) == Depth(o[..k]) {
        assert s[..n + k] == before + o[..k];
        DepthConcat(before, o[..k]);
      }
      assert o[..|o|] == o && o[..0] == "";
      if Segment(o, 0, |o|) {
        forall k | n < k < n + |o| ensures Depth(s[..k]) > 0 { assert Depth(s[..n + (k - n)]) == Depth(o[..k - n]); }
      }
      if Segment(s, n, n + |o|) {
        forall k | 0 < k < |o| ensures Depth(o[..k]) > 0 { assert Depth(s[..n + k]) > 0; }
      }
    }
  }

  predicate NoOpening(s: string) { '{' !in s }

  lemma {:induction false} NoiseIsFlat(s: string)
    requires NoOpening(s)
    ensures Depth(s) == 0 && Candidates(s) == []
  {
    if s == "" {
    } else {
      NoiseIsFlat(s[..|s| - 1]);
    }
  }

  /** Objects printed one after the other, each after some noise. */
  function Printed(noise: seq<string>, objects: seq<string>): string
    requires |noise| == |objects|
  {
    if noise == [] then ""
    else Printed(noise[..|noise| - 1], objects[..|noise| - 1]) + (noise[|noise| - 1] + objects[|noise| - 1])
  }

  function LastTracedObject(objects: seq<string>, parse: string -> Json): Option<Json> {
    if objects == [] then None
    else
      var last := Traced(objects[|objects| - 1], parse);
      if last.Some? then last else LastTracedObject(objects[..|objects| - 1], parse)
  }

  lemma OneObject(o: string, parse: string -> Json)
    requires Segment(o, 0, |o|)
    ensures Recovered(o, parse) == Traced(o, parse)
  {
    var c := Candidates(o);
    assert o[..|o|] == o;
    CandidateBounds(o);
    forall p | p in c ensures p == (0, |o|) {
      CandidatesExact(o, p.0, p.1);
      SegmentsDisjoint(o, p.0, p.1, 0, |o|);
    }
    CandidatesExact(o, 0, |o|);
    assert forall i :: 0 <= i < |c| ==> c[i] in c;
    CandidatesOrdered(o);
    assert c == [(0, |o|)] && c[..0] == [] && o[0..|o|] == o;
    assert LastTraced(o, c[..0], parse) == None;
  }

  /** The last traced object printed is the one recovered, whatever brace-free noise surrounds them. */
  lemma {:induction false} PrintedObjectsRecovered(noise: seq<string>, objects: seq<string>, tail: string,
                                                   parse: string -> Json)
    requires |noise| == |objects| && NoOpening(tail)
    requires forall i :: 0 <= i < |noise| ==> NoOpening(noise[i]) && Segment(objects[i], 0, |objects[i]|)
    ensures Recovered(Printed(noise, objects) + tail, parse) == LastTracedObject(objects, parse)
    ensures Depth(Printed(noise, objects)) == 0
    decreases |noise|
  {
    NoiseIsFlat(tail);
    var out := Printed(noise, objects);
    if noise == [] {
      assert out + tail == tail;
    } else {
      var n := |noise| - 1;
      var before, o := Printed(noise[..n], objects[..n]), objects[n];
      PrintedObjectsRecovered(noise[..n], objects[..n], "", parse);
      assert before + "" == before;
      NoiseIsFlat(noise[n]);
      OneObject(o, parse);
      assert o[..|o|] == o;
      DepthConcat(noise[n], o);
      DepthConcat(before, noise[n] + o);
      RecoveredConcat(noise[n], o, parse);
      RecoveredConcat(before, noise[n] + o, parse);
      RecoveredConcat(out, tail, parse);
    }
  }

  /** A brace inside a string can hide an object: its text is not a segment of its own. */
  lemma BraceInString(prefix: string, suffix: string)
    requires '{' !in prefix && '}' !in prefix
    ensures !Segment("{" + prefix + "}" + suffix + "}", 0, |"{" + prefix + "}" + suffix + "}"|)
  {
    var o := "{" + prefix + "}" + suffix + "}";
    var k := |prefix| + 2;
    assert o[..k] == "{" + prefix + "}";
    InsideOne(prefix);
    assert ("{" + prefix + "}")[..|prefix| + 1] == "{" + prefix;
    var d := Depth(o[..k]);
  }

  lemma {:induction false} InsideOne(prefix: string)
    requires '{' !in prefix && '}' !in prefix
    ensures Depth("{" + prefix) == 1
  {
    if prefix == "" {
      assert "{" + prefix == "{" && "{"[..0] == "";
    } else {
      assert ("{" + prefix)[..|prefix|] == "{" + prefix[..|prefix| - 1];
      InsideOne(prefix[..|prefix| - 1]);
    }
  }
}
