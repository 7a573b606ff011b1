/** Rewriting concrete index and sourcetype names in templates to placeholders, guarded by a
    round trip through the resolver that later replaces the placeholders again. */
module EnvStems {
  import opened Options
  import opened PyText

  // ---------- placeholders and their resolution ----------

  /** `[A-Za-z0-9_]` */
  predicate NameChar(c: char) { 'a' <= c <= 'z' || 'A' <= c <= 'Z' || '0' <= c <= '9' || c == '_' }

  const DIGITS := "0123456789"

  lemma UpperIs(c: char)
    ensures c in UPPER <==> 'A' <= c <= 'Z'
  {
    if 'A' <= c <= 'Z' { assert UPPER[c as int - 'A' as int] == c; }
  }

  lemma LowerIs(c: char)
    ensures c in LOWER <==> 'a' <= c <= 'z'
  {
    if 'a' <= c <= 'z' { assert LOWER[c as int - 'a' as int] == c; }
  }

  lemma DigitIs(c: char)
    ensures c in DIGITS <==> '0' <= c <= '9'
  {
    if '0' <= c <= '9' { assert DIGITS[c as int - '0' as int] == c; }
  }

  lemma NameCharIs(c: char)
    ensures NameChar(c) <==> c in UPPER || c in LOWER || c in DIGITS || c == '_'
  {
    UpperIs(c);
    LowerIs(c);
    DigitIs(c);
  }

  /** The longest run of characters of a class at the start of `s`. */
  function Run(s: string, cls: char -> bool): (r: string)
    ensures |r| <= |s| && r == s[..|r|] && (forall c :: c in r ==> cls(c)) && (|r| < |s| ==> !cls(s[|r|]))
  {
    if s != "" && cls(s[0]) then [s[0]] + Run(s[1..], cls) else ""
  }

  /** `<name>` at the start of `s`: the name. */
  function PlaceholderAt(s: string): Option<string> {
    if s == "" || s[0] != '<' then None
    else
      var name := Run(s[1..], NameChar);
      if name != "" && |name| + 1 < |s| && s[|name| + 1] == '>' then Some(name) else None
  }

  predicate HasPlaceholder(s: string) { s != "" && (PlaceholderAt(s).Some? || HasPlaceholder(s[1..])) }

  /** The value of a placeholder in the environment, "" when it has none. */
  type Profile = string -> string

  /** `apply_template_env_bindings`: each placeholder with a value is replaced. */
  function Resolve(s: string, profile: Profile): string
    decreases |s|
  {
    if s == "" then ""
    else
      var name := PlaceholderAt(s);
      if name.Some? then
        (if profile(name.value) != "" then profile(name.value) else "<" + name.value + ">")
        + Resolve(s[|name.value| + 2..], profile)
      else [s[0]] + Resolve(s[1..], profile)
  }

  /** Text without placeholders is left as it is. */
  lemma {:induction false} ResolveIdentity(s: string, profile: Profile)
    requires !HasPlaceholder(s)
    ensures Resolve(s, profile) == s
  {
    if s == "" {
    } else {
      ResolveIdentity(s[1..], profile);
    }
  }

  /** A placeholder is replaced by its value, or left if it has none, and the text goes on behind it. */
  lemma {:induction false} ResolveAt(pre: string, name: string, post: string, profile: Profile)
    requires '<' !in pre && name != "" && forall c :: c in name ==> NameChar(c)
    ensures Resolve(pre + ("<" + name + ">" + post), profile)
         == pre + ((if profile(name) == "" then "<" + name + ">" else profile(name)) + Resolve(post, profile))
  {
    var tail := "<" + name + ">" + post;
    var s := pre + tail;
    if pre == "" {
      assert s == tail;
      PlaceholderHere(name, post);
      assert tail[|name| + 2..] == post;
    } else {
      assert s[0] == pre[0] && s[0] in pre && s[1..] == pre[1..] + tail;
      ResolveAt(pre[1..], name, post, profile);
    }
  }

  // ---------- the abstraction ----------

  predicate IndexChar(c: char) { NameChar(c) || c == '*' }
  predicate SourcetypeChar(c: char) { NameChar(c) || c in ":./*-" }

  lemma NameClasses(c: char)
    ensures IndexChar(c) <==> c in UPPER || c in LOWER || c in DIGITS || c in {'_', '*'}
    ensures SourcetypeChar(c) <==> c in UPPER || c in LOWER || c in DIGITS || c in {'_', ':', '.', '/', '*', '-'}
  {
    NameCharIs(c);
  }

  const INDEX := "index="
  const SOURCETYPE := "sourcetype="

  /** `re.findall(key + "([class]+)", s)` */
  function FindAll(s: string, key: string, cls: char -> bool): seq<string>
    decreases |s|
  {
    if s == "" then []
    else if |key| <= |s| && StartsWith(s, key) && Run(s[|key|..], cls) != "" then
      var run := Run(s[|key|..], cls);
      [run] + FindAll(s[|key| + |run|..], key, cls)
    else FindAll(s[1..], key, cls)
  }

  /** The word boundary `\b` after `lit` when `rest` follows. */
  predicate Boundary(lit: string, rest: string, word: char -> bool)
    requires lit != ""
  {
    word(lit[|lit| - 1]) != (rest != "" && word(rest[0]))
  }

  predicate OccursAt(s: string, lit: string, word: char -> bool)
    requires lit != ""
  {
    |lit| <= |s| && StartsWith(s, lit) && Boundary(lit, s[|lit|..], word)
  }

  /** `re.sub(re.escape(lit) + r"\b", repl, s)` */
  function Sub(s: string, lit: string, repl: string, word: char -> bool): string
    requires lit != ""
    decreases |s|
  {
    if s == "" then ""
    else if OccursAt(s, lit, word) then repl + Sub(s[|lit|..], lit, repl, word)
    else [s[0]] + Sub(s[1..], lit, repl, word)
  }

  /** Stems by sourcetype. */
  function Stems(st: string): Option<(string, string)> {
    if st == "pgcil:auth" then Some(("auth_index", "auth_sourcetype"))
    else if st == "pgcil:vpn" then Some(("vpn_index", "vpn_sourcetype"))
    else if st == "pgcil:firewall" then Some(("firewall_index", "firewall_sourcetype"))
    else if st == "pgcil:dns" then Some(("dns_index", "dns_sourcetype"))
    else if st == "pgcil:edr" then Some(("endpoint_index", "endpoint_process_sourcetype"))
    else None
  }

  const DEPLOYMENTS: map<string, (string, string)> := map[
    "pgcil:auth" := ("auth_index", "auth_sourcetype"),
    "pgcil:vpn" := ("vpn_index", "vpn_sourcetype"),
    "pgcil:firewall" := ("firewall_index", "firewall_sourcetype"),
    "pgcil:dns" := ("dns_index", "dns_sourcetype"),
    "pgcil:edr" := ("endpoint_index", "endpoint_process_sourcetype")]

  /** Exactly these five sourcetypes have stems. */
  lemma StemsAre(st: string)
    ensures Stems(st) == if st in DEPLOYMENTS then Some(DEPLOYMENTS[st]) else None
  {
  }

  /** All the elements of a list are equal and there is one. */
  predicate OneValue(s: seq<string>) { s != [] && forall x :: x in s ==> x == s[0] }

  /** `_abstract_spl` */
  function AbstractSpl(spl: string, word: char -> bool): Option<string> {
    var indexes, sourcetypes := FindAll(spl, INDEX, IndexChar), FindAll(spl, SOURCETYPE, SourcetypeChar);
    if !OneValue(indexes) || !OneValue(sourcetypes) || Stems(sourcetypes[0]).None? then None
    else
      var (indexStem, sourcetypeStem) := Stems(sourcetypes[0]).value;
      var out := Sub(spl, INDEX + indexes[0], INDEX + "<" + indexStem + ">", word);
      Some(Sub(out, SOURCETYPE + sourcetypes[0], SOURCETYPE + "<" + sourcetypeStem + ">", word))
  }

  datatype Verdict = Already | Skipped | NoRoundTrip | Abstracted

  function Judge(spl: string, profile: Profile, word: char -> bool): Verdict {
    if HasPlaceholder(spl) then Already
    else
      var out := AbstractSpl(spl, word);
      if out.None? then Skipped
      else if Resolve(out.value, profile) != spl then NoRoundTrip
      else Abstracted
  }

  function Rewritten(spl: string, profile: Profile, word: char -> bool): string {
    if Judge(spl, profile, word).Abstracted? then AbstractSpl(spl, word).value else spl
  }

  datatype Template = Template(id: string, spl: string)

  /** The verdict on a template text, and the text it is left with. */
  type Rewriter = string -> (Verdict, string)

  function RewriterFor(profile: Profile, word: char -> bool): Rewriter {
    spl => (Judge(spl, profile, word), Rewritten(spl, profile, word))
  }

  function Label(t: Template, v: Verdict): string { if v.NoRoundTrip? then t.id + "(no_roundtrip)" else t.id }

  /** The labels of the templates with one of the given verdicts. */
  function Labelled(ts: seq<Template>, f: Rewriter, vs: set<Verdict>): seq<string> {
    if ts == [] then []
    else
      var t := ts[|ts| - 1];
      Labelled(ts[..|ts| - 1], f, vs) + (if f(t.spl).0 in vs then [Label(t, f(t.spl).0)] else [])
  }

  /** The loop of `main`, rewriting the templates in place. */
  method RewriteAll(ts: array<Template>, f: Rewriter)
    returns (abstracted: seq<string>, already: seq<string>, skipped: seq<string>)
    requires forall spl :: !f(spl).0.Abstracted? ==> f(spl).1 == spl
    modifies ts
    ensures forall i :: 0 <= i < ts.Length ==> ts[i] == old(ts[i]).(spl := f(old(ts[i].spl)).1)
    ensures abstracted == Labelled(old(ts[..]), f, {Abstracted})
    ensures already == Labelled(old(ts[..]), f, {Already})
    ensures skipped == Labelled(old(ts[..]), f, {Skipped, NoRoundTrip})
  {
    abstracted, already, skipped := [], [], [];
    ghost var before := ts[..];
    for i := 0 to ts.Length
      invariant forall k :: 0 <= k < i ==> ts[k] == before[k].(spl := f(before[k].spl).1)
      invariant forall k :: i <= k < ts.Length ==> ts[k] == before[k]
      invariant abstracted == Labelled(before[..i], f, {Abstracted})
      invariant already == Labelled(before[..i], f, {Already})
      invariant skipped == Labelled(before[..i], f, {Skipped, NoRoundTrip})
    {
      var t := ts[i];
      assert t == before[i] && before[..i + 1][..i] == before[..i];
      var (verdict, text) := f(t.spl);
      match verdict {
        case Already => already := already + [t.id];
        case Skipped => skipped := skipped + [t.id];
        case NoRoundTrip => skipped := skipped + [t.id + "(no_roundtrip)"];
        case Abstracted =>
          ts[i] := t.(spl := text);
          abstracted := abstracted + [t.id];
      }
    }
    assert before[..ts.Length] == before;
  }

  /** One run over the templates. */
  method AbstractTemplates(ts: array<Template>, profile: Profile, word: char -> bool)
    returns (abstracted: seq<string>, already: seq<string>, skipped: seq<string>)
    modifies ts
    ensures forall i :: 0 <= i < ts.Length ==> ts[i] == old(ts[i]).(spl := Rewritten(old(ts[i].spl), profile, word))
    ensures abstracted == Labelled(old(ts[..]), RewriterFor(profile, word), {Abstracted})
    ensures already == Labelled(old(ts[..]), RewriterFor(profile, word), {Already})
    ensures skipped == Labelled(old(ts[..]), RewriterFor(profile, word), {Skipped, NoRoundTrip})
  {
    abstracted, already, skipped := RewriteAll(ts, RewriterFor(profile, word));
  }

  // ---------- meaning and idempotence ----------

  /** A rewritten template resolves to what the original resolves to. */
  lemma MeaningPreserved(spl: string, profile: Profile, word: char -> bool)
    ensures Resolve(Rewritten(spl, profile, word), profile) == Resolve(spl, profile)
  {
    if Judge(spl, profile, word).Abstracted? { ResolveIdentity(spl, profile); }
  }

  /** A second run rewrites nothing. */
  lemma RewriteIdempotent(spl: string, profile: Profile, word: char -> bool)
    ensures var once := Rewritten(spl, profile, word); Rewritten(once, profile, word) == once
  {
    var once := Rewritten(spl, profile, word);
    if !HasPlaceholder(once) { ResolveIdentity(once, profile); }
  }

  // ---------- what an abstraction contains ----------

  /** The literal occurs somewhere before a word boundary. */
  predicate Occurs(s: string, lit: string, word: char -> bool)
    requires lit != ""
  {
    OccursAt(s, lit, word) || (s != "" && Occurs(s[1..], lit, word))
  }

  predicate Embeds(s: string, x: string) {
    (|x| <= |s| && s[..|x|] == x) || (s != "" && Embeds(s[1..], x))
  }

  lemma PlaceholderHere(name: string, post: string)
    requires name != "" && forall c :: c in name ==> NameChar(c)
    ensures PlaceholderAt("<" + name + ">" + post) == Some(name)
  {
    var s := "<" + name + ">" + post;
    var rest := s[1..];
    assert rest == name + (">" + post);
    var run := Run(rest, NameChar);
    assert rest[|name|] == '>';
    forall k | 0 <= k < |name| ensures NameChar(rest[k]) { assert rest[k] in name; }
    forall k | 0 <= k < |run| ensures NameChar(rest[k]) { assert run[k] in run && run[k] == rest[k]; }
    assert |run| == |name|;
    assert run == name;
  }

  lemma {:induction false} PlaceholderInside(pre: string, name: string, post: string)
    requires name != "" && forall c :: c in name ==> NameChar(c)
    ensures HasPlaceholder(pre + ("<" + name + ">" + post))
  {
    var s := pre + ("<" + name + ">" + post);
    if pre == "" {
      PlaceholderHere(name, post);
      assert s == "<" + name + ">" + post;
    } else {
      assert s[1..] == pre[1..] + ("<" + name + ">" + post);
      PlaceholderInside(pre[1..], name, post);
    }
  }

  lemma {:induction false} EmbeddedPlaceholder(s: string, key: string, name: string)
    requires name != "" && forall c :: c in name ==> NameChar(c)
    requires Embeds(s, key + "<" + name + ">")
    ensures HasPlaceholder(s)
  {
    var x := key + "<" + name + ">";
    if |x| <= |s| && s[..|x|] == x {
      assert s == key + ("<" + name + ">" + s[|x|..]);
      PlaceholderInside(key, name, s[|x|..]);
    } else {
      EmbeddedPlaceholder(s[1..], key, name);
    }
  }

  /** Where the literal occurs, the replacement ends up in the result; where it does not, nothing changes. */
  lemma {:induction false} SubEffect(s: string, lit: string, repl: string, word: char -> bool)
    requires lit != ""
    ensures if Occurs(s, lit, word) then Embeds(Sub(s, lit, repl, word), repl) else Sub(s, lit, repl, word) == s
    decreases |s|
  {
    var r := Sub(s, lit, repl, word);
    if s == "" {
    } else {
      if OccursAt(s, lit, word) {
        assert r[..|repl|] == repl;
      } else {
        SubEffect(s[1..], lit, repl, word);
        assert r[1..] == Sub(s[1..], lit, repl, word);
      }
    }
  }

  /** Every name found stands in the text after its key and is not continued by its class. */
  lemma {:induction false} FoundOccurs(s: string, key: string, cls: char -> bool, x: string)
    requires key != "" && x in FindAll(s, key, cls)
    ensures exists i :: 0 <= i <= |s| && StandsAt(s[i..], key + x, cls) && x != ""
    decreases |s|
  {
    if |key| <= |s| && StartsWith(s, key) && Run(s[|key|..], cls) != "" {
      var run := Run(s[|key|..], cls);
      var n := |key| + |run|;
      if x == run {
        StartsWithSlice(s, key);
        StartsWithSlice(s, key + run);
        assert s[..n] == s[..|key|] + s[|key|..][..|run|] == key + run;
        assert s[0..] == s && StandsAt(s[0..], key + x, cls);
      } else {
        FoundOccurs(s[n..], key, cls, x);
        var i :| 0 <= i <= |s[n..]| && StandsAt(s[n..][i..], key + x, cls);
        assert s[n..][i..] == s[n + i..];
      }
    } else {
      FoundOccurs(s[1..], key, cls, x);
      var i :| 0 <= i <= |s[1..]| && StandsAt(s[1..][i..], key + x, cls);
      assert s[1..][i..] == s[i + 1..];
    }
  }

  predicate StandsAt(s: string, lit: string, cls: char -> bool) {
    |lit| <= |s| && StartsWith(s, lit) && (|lit| < |s| ==> !cls(s[|lit|]))
  }

  /** The text holds no word characters other than ASCII letters, digits and underscores. */
  predicate PlainFor(s: string, word: char -> bool) { forall c :: c in s ==> (word(c) <==> NameChar(c)) }

  /** In such a text a sourcetype that was found stands before a word boundary. */
  lemma SourcetypeAtBoundary(s: string, st: string, word: char -> bool)
    requires StandsAt(s, SOURCETYPE + st, SourcetypeChar) && Stems(st).Some?
    requires PlainFor(s, word)
    ensures OccursAt(s, SOURCETYPE + st, word)
  {
    var lit := SOURCETYPE + st;
    assert st[|st| - 1] == lit[|lit| - 1];
    assert NameChar(st[|st| - 1]) && lit[|lit| - 1] == s[|lit| - 1];
    var rest := s[|lit|..];
    if rest != "" { assert rest[0] == s[|lit|]; }
  }

  lemma StemsAreNames(st: string)
    requires Stems(st).Some?
    ensures var (a, b) := Stems(st).value;
      a != "" && b != "" && (forall c :: c in a ==> NameChar(c)) && (forall c :: c in b ==> NameChar(c))
  {
  }

  /** If a substitution of a bracketed name took place, the result has a placeholder. */
  lemma SubMarks(s: string, lit: string, key: string, name: string, word: char -> bool)
    requires lit != "" && name != "" && forall c :: c in name ==> NameChar(c)
    requires Occurs(s, lit, word)
    ensures HasPlaceholder(Sub(s, lit, key + "<" + name + ">", word))
  {
    SubEffect(s, lit, key + "<" + name + ">", word);
    EmbeddedPlaceholder(Sub(s, lit, key + "<" + name + ">", word), key, name);
  }

  /** Two substitutions in a row leave a placeholder if either literal occurs, else the text as it was. */
  lemma EitherMarks(s: string, lit1: string, a: string, lit2: string, b: string, word: char -> bool)
    requires lit1 != "" && lit2 != "" && a != "" && b != ""
    requires (forall c :: c in a ==> NameChar(c)) && (forall c :: c in b ==> NameChar(c))
    ensures var out := Sub(Sub(s, lit1, INDEX + "<" + a + ">", word), lit2, SOURCETYPE + "<" + b + ">", word);
      if Occurs(s, lit1, word) || Occurs(s, lit2, word) then HasPlaceholder(out) else out == s
  {
    var out := Sub(s, lit1, INDEX + "<" + a + ">", word);
    SubEffect(s, lit1, INDEX + "<" + a + ">", word);
    SubEffect(out, lit2, SOURCETYPE + "<" + b + ">", word);
    if Occurs(out, lit2, word) {
      SubMarks(out, lit2, SOURCETYPE, b, word);
    } else if Occurs(s, lit1, word) {
      SubMarks(s, lit1, INDEX, a, word);
    }
  }

  lemma {:induction false} OccursFrom(s: string, i: nat, lit: string, word: char -> bool)
    requires lit != "" && i <= |s| && OccursAt(s[i..], lit, word)
    ensures Occurs(s, lit, word)
  {
    if i == 0 {
      assert s[0..] == s;
    } else {
      assert s[1..][i - 1..] == s[i..];
      OccursFrom(s[1..], i - 1, lit, word);
    }
  }

  /** One of the two names found stands somewhere before a word boundary. */
  predicate Marks(spl: string, word: char -> bool)
    requires AbstractSpl(spl, word).Some?
  {
    || Occurs(spl, INDEX + FindAll(spl, INDEX, IndexChar)[0], word)
    || Occurs(spl, SOURCETYPE + FindAll(spl, SOURCETYPE, SourcetypeChar)[0], word)
  }

  /** Whatever the word characters: an abstraction contains a placeholder exactly when one of the
      names found stands before a word boundary, and otherwise it is the text itself. */
  lemma MarkedIff(spl: string, word: char -> bool)
    requires AbstractSpl(spl, word).Some?
    ensures !HasPlaceholder(spl) ==> (HasPlaceholder(AbstractSpl(spl, word).value) <==> Marks(spl, word))
    ensures Marks(spl, word) ==> HasPlaceholder(AbstractSpl(spl, word).value)
    ensures !Marks(spl, word) ==> AbstractSpl(spl, word).value == spl
  {
    var index, st := FindAll(spl, INDEX, IndexChar)[0], FindAll(spl, SOURCETYPE, SourcetypeChar)[0];
    var (a, b) := Stems(st).value;
    StemsAreNames(st);
    EitherMarks(spl, INDEX + index, a, SOURCETYPE + st, b, word);
  }

  /** In a text with ASCII word characters only, the sourcetype found always stands before a boundary. */
  lemma AsciiMarks(spl: string, word: char -> bool)
    requires AbstractSpl(spl, word).Some? && PlainFor(spl, word)
    ensures Marks(spl, word)
  {
    var st := FindAll(spl, SOURCETYPE, SourcetypeChar)[0];
    FoundOccurs(spl, SOURCETYPE, SourcetypeChar, st);
    var i :| 0 <= i <= |spl| && StandsAt(spl[i..], SOURCETYPE + st, SourcetypeChar);
    SourcetypeAtBoundary(spl[i..], st, word);
    OccursFrom(spl, i, SOURCETYPE + st, word);
  }

  /** So the abstraction of such a text contains a placeholder. */
  lemma AbstractionIsMarked(spl: string, word: char -> bool)
    requires AbstractSpl(spl, word).Some? && PlainFor(spl, word)
    ensures HasPlaceholder(AbstractSpl(spl, word).value)
  {
    AsciiMarks(spl, word);
    MarkedIff(spl, word);
  }

  /** A template that is listed as abstracted and left without a placeholder. */
  predicate Stuck(spl: string, profile: Profile, word: char -> bool) {
    Judge(spl, profile, word).Abstracted? && !Marks(spl, word)
  }

  /** The verdict of a second run: a rewritten template counts as already abstracted, unless it is
      stuck; then it was not changed and is listed as abstracted once more. */
  lemma SecondRunVerdict(spl: string, profile: Profile, word: char -> bool)
    ensures var once := Rewritten(spl, profile, word);
      var first, again := Judge(spl, profile, word), Judge(once, profile, word);
      && (Stuck(spl, profile, word) ==> once == spl && again.Abstracted?)
      && (!Stuck(spl, profile, word) ==> again == if first.Abstracted? then Already else first)
  {
    if Judge(spl, profile, word).Abstracted? { MarkedIff(spl, word); }
  }

  /** So such a text, once rewritten, counts as already abstracted. */
  lemma SecondRunAbstractsNone(spl: string, profile: Profile, word: char -> bool)
    requires PlainFor(spl, word)
    ensures var again := Judge(Rewritten(spl, profile, word), profile, word);
      if Judge(spl, profile, word).Abstracted? then again.Already? else again == Judge(spl, profile, word)
  {
    SecondRunVerdict(spl, profile, word);
    if Judge(spl, profile, word).Abstracted? { AsciiMarks(spl, word); }
  }

  /** A text whose names are found but do not end at a boundary is stuck, whatever the environment. */
  lemma UnmarkedIsStuck(spl: string, profile: Profile, word: char -> bool)
    requires AbstractSpl(spl, word).Some? && !HasPlaceholder(spl) && !Marks(spl, word)
    ensures Stuck(spl, profile, word)
  {
    MarkedIff(spl, word);
    ResolveIdentity(spl, profile);
  }

  /** The templates listed as abstracted by a second run are exactly the stuck ones, in order. */
  lemma {:induction false} SecondRunLabels(ts: seq<Template>, again: seq<Template>, profile: Profile,
                                           word: char -> bool)
    requires |again| == |ts|
    requires forall i :: 0 <= i < |ts| ==> again[i] == ts[i].(spl := Rewritten(ts[i].spl, profile, word))
    ensures Labelled(again, RewriterFor(profile, word), {Abstracted}) == StuckLabels(ts, profile, word)
  {
    if ts == [] {
    } else {
      var n := |ts| - 1;
      SecondRunLabels(ts[..n], again[..n], profile, word);
      SecondRunVerdict(ts[n].spl, profile, word);
    }
  }

  function StuckLabels(ts: seq<Template>, profile: Profile, word: char -> bool): seq<string> {
    if ts == [] then []
    else
      var t := ts[|ts| - 1];
      StuckLabels(ts[..|ts| - 1], profile, word) + (if Stuck(t.spl, profile, word) then [t.id] else [])
  }

  /** A second run abstracts nothing exactly when no template is stuck. */
  lemma {:induction false} NoneStuckIff(ts: seq<Template>, profile: Profile, word: char -> bool)
    ensures StuckLabels(ts, profile, word) == [] <==> forall t :: t in ts ==> !Stuck(t.spl, profile, word)
  {
    if ts == [] {
    } else {
      var before, last := ts[..|ts| - 1], ts[|ts| - 1];
      assert ts == before + [last];
      NoneStuckIff(before, profile, word);
    }
  }

  /** Of templates with ASCII word characters only none is stuck, so a second run abstracts none. */
  lemma AsciiNeverStuck(ts: seq<Template>, profile: Profile, word: char -> bool)
    requires forall t :: t in ts ==> PlainFor(t.spl, word)
    ensures StuckLabels(ts, profile, word) == []
  {
    forall t | t in ts ensures !Stuck(t.spl, profile, word) {
      if Judge(t.spl, profile, word).Abstracted? { AsciiMarks(t.spl, word); }
    }
    NoneStuckIff(ts, profile, word);
  }

  // ---------- a stuck template ----------

  lemma NotPrefix(s: string, p: string, c: char)
    requires c in p && c !in s
    ensures !StartsWith(s, p)
  {
    var i :| 0 <= i < |p| && p[i] == c;
    assert i < |s| ==> s[i] != p[i];
  }

  lemma {:induction false} NothingToFind(s: string, key: string, cls: char -> bool, c: char)
    requires c in key && c !in s
    ensures FindAll(s, key, cls) == []
  {
    if s == "" {
    } else {
      NotPrefix(s, key, c);
      NothingToFind(s[1..], key, cls, c);
    }
  }

  lemma {:induction false} FindAllSkips(pre: string, rest: string, key: string, cls: char -> bool)
    requires key != "" && key[0] !in pre
    ensures FindAll(pre + rest, key, cls) == FindAll(rest, key, cls)
  {
    if pre == "" {
      assert pre + rest == rest;
    } else {
      assert (pre + rest)[0] == pre[0] && (pre + rest)[1..] == pre[1..] + rest;
      FindAllSkips(pre[1..], rest, key, cls);
    }
  }

  lemma {:induction false} NoOccurrence(s: string, lit: string, word: char -> bool, c: char)
    requires lit != "" && c in lit && c !in s
    ensures !Occurs(s, lit, word)
  {
    if s == "" {
    } else {
      NotPrefix(s, lit, c);
      NoOccurrence(s[1..], lit, word, c);
    }
  }

  lemma {:induction false} OccursSkips(pre: string, rest: string, lit: string, word: char -> bool)
    requires lit != "" && lit[0] !in pre
    ensures Occurs(pre + rest, lit, word) == Occurs(rest, lit, word)
  {
    if pre == "" {
      assert pre + rest == rest;
    } else {
      assert (pre + rest)[0] == pre[0] && (pre + rest)[1..] == pre[1..] + rest;
      OccursSkips(pre[1..], rest, lit, word);
    }
  }

  lemma {:induction false} NoBracket(s: string)
    requires '<' !in s
    ensures !HasPlaceholder(s)
  {
    if s == "" {
    } else {
      NoBracket(s[1..]);
    }
  }

  /** A name right after its key is found, and then the search goes on behind it. */
  lemma FoundFirst(s: string, key: string, name: string, rest: string, cls: char -> bool)
    requires key != "" && StartsWith(s, key) && s[|key|..] == name + rest
    requires name != "" && Run(name + rest, cls) == name
    ensures FindAll(s, key, cls) == [name] + FindAll(rest, key, cls)
  {
    assert s[|key|..][|name|..] == rest;
    assert s[|key| + |name|..] == rest;
  }

  /** Before another word character a literal ending in one does not stand at a boundary. */
  lemma NotAtBoundary(lit: string, rest: string, word: char -> bool, c: char)
    requires lit != "" && rest != "" && word(lit[|lit| - 1]) && word(rest[0])
    requires lit[0] !in lit[1..] && c in lit && c !in rest
    ensures !Occurs(lit + rest, lit, word)
  {
    var s := lit + rest;
    assert s[|lit|..] == rest && !OccursAt(s, lit, word);
    assert s[1..] == lit[1..] + rest;
    OccursSkips(lit[1..], rest, lit, word);
    NoOccurrence(rest, lit, word, c);
  }

  lemma {:induction false} RunIs(name: string, rest: string, cls: char -> bool)
    requires (forall x :: x in name ==> cls(x)) && rest != "" && !cls(rest[0])
    ensures Run(name + rest, cls) == name
  {
    if name == "" {
      assert name + rest == rest;
    } else {
      assert (name + rest)[1..] == name[1..] + rest;
      RunIs(name[1..], rest, cls);
    }
  }

  /** A name that occurs once and is followed by a word character outside its class. */
  lemma OnlyUnmarked(pre: string, key: string, name: string, rest: string, cls: char -> bool, word: char -> bool,
                     c: char)
    requires key != "" && name != "" && rest != "" && (forall x :: x in name ==> cls(x)) && !cls(rest[0])
    requires word(name[|name| - 1]) && word(rest[0])
    requires key[0] !in pre && key[0] !in key[1..] && key[0] !in name && c in key && c !in rest
    ensures FindAll(pre + (key + name + rest), key, cls) == [name]
    ensures !Occurs(pre + (key + name + rest), key + name, word)
  {
    var s := key + name + rest;
    FindAllSkips(pre, s, key, cls);
    OccursSkips(pre, s, key + name, word);
    assert s[|key|..] == name + rest;
    RunIs(name, rest, cls);
    FoundFirst(s, key, name, rest, cls);
    NothingToFind(rest, key, cls, c);
    NotAtBoundary(key + name, rest, word, c);
  }

  lemma UnmarkedNames(spl: string, index: string, st: string, profile: Profile, word: char -> bool)
    requires FindAll(spl, INDEX, IndexChar) == [index] && FindAll(spl, SOURCETYPE, SourcetypeChar) == [st]
    requires Stems(st).Some? && '<' !in spl
    requires !Occurs(spl, INDEX + index, word) && !Occurs(spl, SOURCETYPE + st, word)
    ensures Stuck(spl, profile, word) && Rewritten(spl, profile, word) == spl
  {
    NoBracket(spl);
    UnmarkedIsStuck(spl, profile, word);
    SecondRunVerdict(spl, profile, word);
  }

  function Accented(e: char): string { INDEX + "a" + [e] + " " + SOURCETYPE + "pgcil:auth" + [e] }

  lemma AccentedIndex(e: char, word: char -> bool)
    requires word('a') && word(e) && !SourcetypeChar(e)
    ensures FindAll(Accented(e), INDEX, IndexChar) == ["a"] && !Occurs(Accented(e), INDEX + "a", word)
  {
    var tail := [e] + " " + SOURCETYPE + "pgcil:auth" + [e];
    assert Accented(e) == "" + (INDEX + "a" + tail);
    OnlyUnmarked("", INDEX, "a", tail, IndexChar, word, 'x');
  }

  lemma AccentedSourcetype(e: char, word: char -> bool)
    requires word('h') && word(e) && !SourcetypeChar(e)
    ensures FindAll(Accented(e), SOURCETYPE, SourcetypeChar) == ["pgcil:auth"]
    ensures !Occurs(Accented(e), SOURCETYPE + "pgcil:auth", word)
  {
    var pre := INDEX + "a" + [e] + " ";
    assert Accented(e) == pre + (SOURCETYPE + "pgcil:auth" + [e]);
    OnlyUnmarked(pre, SOURCETYPE, "pgcil:auth", [e], SourcetypeChar, word, 's');
  }

  lemma AccentedPlain(e: char)
    requires e != '<'
    ensures '<' !in Accented(e)
  {
  }

  /** With a letter `e` such as an accented one, which belongs to neither name class but counts as
      a word character, this template is stuck in every environment: it is listed as abstracted on
      every run and never changes. */
  lemma AccentedIsStuck(e: char, profile: Profile, word: char -> bool)
    requires word('a') && word('h') && word(e) && !SourcetypeChar(e) && e != '<'
    ensures Stuck(Accented(e), profile, word) && Rewritten(Accented(e), profile, word) == Accented(e)
  {
    var spl, index, st := Accented(e), "a", "pgcil:auth";
    assert FindAll(spl, INDEX, IndexChar) == [index] && !Occurs(spl, INDEX + index, word) by { AccentedIndex(e, word); }
    assert FindAll(spl, SOURCETYPE, SourcetypeChar) == [st] && !Occurs(spl, SOURCETYPE + st, word) by {
      AccentedSourcetype(e, word);
    }
    assert '<' !in spl && Stems(st).Some? by { AccentedPlain(e); }
    UnmarkedNames(spl, index, st, profile, word);
  }

  // ---------- what the abstraction of a template is ----------

  /** After a name there is nothing, or a character that is neither a word character nor continues it. */
  predicate Stops(post: string, word: char -> bool) {
    post != "" ==> !SourcetypeChar(post[0]) && !word(post[0])
  }

  /** Replacing a literal that stands first, before a boundary, and nowhere else. */
  lemma SubFirst(lit: string, repl: string, rest: string, word: char -> bool)
    requires lit != "" && Boundary(lit, rest, word) && !Occurs(rest, lit, word)
    ensures Sub(lit + rest, lit, repl, word) == repl + rest
  {
    var s := lit + rest;
    assert s[|lit|..] == rest && StartsWith(s, lit) && OccursAt(s, lit, word);
    SubEffect(rest, lit, repl, word);
  }

  /** Text in which the literal starts nowhere is copied. */
  lemma {:induction false} SubSkips(pre: string, rest: string, lit: string, repl: string, word: char -> bool)
    requires lit != "" && forall i :: 0 <= i < |pre| ==> !StartsWith((pre + rest)[i..], lit)
    ensures Sub(pre + rest, lit, repl, word) == pre + Sub(rest, lit, repl, word)
  {
    var s := pre + rest;
    if pre == "" {
      assert s == rest;
    } else {
      assert s[0..] == s && s[1..] == pre[1..] + rest;
      forall i | 0 <= i < |pre[1..]| ensures !StartsWith((pre[1..] + rest)[i..], lit) {
        assert (pre[1..] + rest)[i..] == s[i + 1..];
      }
      SubSkips(pre[1..], rest, lit, repl, word);
    }
  }

  /** No 's' in the text is followed by an 'o', nor does it end in an 's'. */
  predicate NoSource(pre: string) {
    forall i :: 0 <= i < |pre| && pre[i] == 's' ==> i + 1 < |pre| && pre[i + 1] != 'o'
  }

  lemma NoSourceSkips(pre: string, rest: string, name: string)
    requires NoSource(pre)
    ensures forall i :: 0 <= i < |pre| ==> !StartsWith((pre + rest)[i..], SOURCETYPE + name)
  {
    var lit := SOURCETYPE + name;
    assert lit[0] == 's' && lit[1] == 'o';
    forall i | 0 <= i < |pre| ensures !StartsWith((pre + rest)[i..], lit) {
      var t := (pre + rest)[i..];
      assert t[0] == pre[i] && (i + 1 < |pre| ==> t[1] == pre[i + 1]);
    }
  }

  lemma IndexFound(index: string, rest: string)
    requires index != "" && (forall c :: c in index ==> NameChar(c)) && rest != "" && rest[0] == ' ' && 'x' !in rest
    ensures FindAll(INDEX + index + rest, INDEX, IndexChar) == [index]
  {
    var spl := INDEX + index + rest;
    assert spl[|INDEX|..] == index + rest;
    RunIs(index, rest, IndexChar);
    FoundFirst(spl, INDEX, index, rest, IndexChar);
    NothingToFind(rest, INDEX, IndexChar, 'x');
  }

  lemma IndexReplaced(index: string, repl: string, rest: string, word: char -> bool)
    requires index != "" && rest != "" && word(index[|index| - 1]) && !word(rest[0]) && 'x' !in rest
    ensures Sub(INDEX + index + rest, INDEX + index, repl, word) == repl + rest
  {
    NoOccurrence(rest, INDEX + index, word, 'x');
    SubFirst(INDEX + index, repl, rest, word);
  }

  lemma SourcetypeFound(pre: string, st: string, post: string)
    requires st != "" && (forall c :: c in st ==> SourcetypeChar(c)) && NoSource(pre)
    requires '=' !in post && (post != "" ==> !SourcetypeChar(post[0]))
    ensures FindAll(pre + (SOURCETYPE + st + post), SOURCETYPE, SourcetypeChar) == [st]
  {
    NoSourceFinds(pre, SOURCETYPE + st + post);
    NothingToFind(post, SOURCETYPE, SourcetypeChar, '=');
    FoundAlone(SOURCETYPE, st, post);
  }

  lemma FoundAlone(key: string, st: string, post: string)
    requires st != "" && (forall c :: c in st ==> SourcetypeChar(c)) && (post != "" ==> !SourcetypeChar(post[0]))
    requires key != "" && FindAll(post, key, SourcetypeChar) == []
    ensures FindAll(key + st + post, key, SourcetypeChar) == [st]
  {
    assert (key + st + post)[|key|..] == st + post;
    RunUpTo(st, post);
    FoundFirst(key + st + post, key, st, post, SourcetypeChar);
  }

  lemma SourcetypeReplaced(pre: string, st: string, repl: string, post: string, word: char -> bool)
    requires st != "" && word(st[|st| - 1]) && NoSource(pre) && '=' !in post && (post != "" ==> !word(post[0]))
    ensures Sub(pre + (SOURCETYPE + st + post), SOURCETYPE + st, repl, word) == pre + (repl + post)
  {
    var lit := SOURCETYPE + st;
    NoOccurrence(post, lit, word, '=');
    NoSourceSkips(pre, lit + post, st);
    SubSkips(pre, lit + post, lit, repl, word);
    SubFirst(lit, repl, post, word);
  }

  lemma RunUpTo(st: string, post: string)
    requires (forall c :: c in st ==> SourcetypeChar(c)) && (post != "" ==> !SourcetypeChar(post[0]))
    ensures Run(st + post, SourcetypeChar) == st
  {
    if post == "" {
      assert st + post == st;
      RunAll(st);
    } else {
      RunIs(st, post, SourcetypeChar);
    }
  }

  lemma {:induction false} RunAll(st: string)
    requires forall c :: c in st ==> SourcetypeChar(c)
    ensures Run(st, SourcetypeChar) == st
  {
    if st == "" {
    } else {
      assert st[0] in st;
      RunAll(st[1..]);
    }
  }

  lemma {:induction false} NoSourceFinds(pre: string, tail: string)
    requires NoSource(pre)
    ensures FindAll(pre + tail, SOURCETYPE, SourcetypeChar) == FindAll(tail, SOURCETYPE, SourcetypeChar)
  {
    if pre == "" {
      assert pre + tail == tail;
    } else {
      NoSourceSkips(pre, tail, "");
      assert (pre + tail)[0..] == pre + tail && SOURCETYPE + "" == SOURCETYPE;
      assert (pre + tail)[1..] == pre[1..] + tail;
      NoSourceFinds(pre[1..], tail);
    }
  }

  /** A template that names an index and then one of the five sourcetypes, each once. */
  ghost predicate Simple(index: string, st: string, post: string, word: char -> bool) {
    && index != "" && (forall c :: c in index ==> NameChar(c)) && word(index[|index| - 1]) && !word(' ')
    && st in DEPLOYMENTS && word(st[|st| - 1]) && NoSource(index)
    && Stops(post, word) && '=' !in post && 'x' !in post
  }

  lemma StemsPlain(st: string)
    requires st in DEPLOYMENTS
    ensures st != "" && 'x' !in st && (forall c :: c in st ==> SourcetypeChar(c))
    ensures NoSource(INDEX + Bracketed(DEPLOYMENTS[st].0) + " ")
  {
  }

  /** The abstraction of such a template: both names give way to the stems of the sourcetype, in angle
      brackets, and nothing else changes. */
  lemma SimpleAbstraction(index: string, st: string, post: string, word: char -> bool)
    requires Simple(index, st, post, word)
    ensures AbstractSpl("index=" + index + " " + ("sourcetype=" + st + post), word)
         == Some("index=" + Bracketed(DEPLOYMENTS[st].0) + " " + ("sourcetype=" + Bracketed(DEPLOYMENTS[st].1) + post))
  {
    StemsAre(st);
    StemsPlain(st);
    var (a, b) := DEPLOYMENTS[st];
    Abstracts(index, st, post, Bracketed(a), Bracketed(b), word);
    BracketsAfter(INDEX, a);
    BracketsAfter(SOURCETYPE, b);
    assert OneValue([index]) && OneValue([st]);
  }

  function Bracketed(name: string): string { "<" + name + ">" }

  lemma BracketsAfter(key: string, name: string)
    ensures key + "<" + name + ">" == key + Bracketed(name)
  {
  }

  /** Both searches and both replacements, for any two new names. */
  lemma Abstracts(index: string, st: string, post: string, a: string, b: string, word: char -> bool)
    requires Simple(index, st, post, word) && NoSource(INDEX + a + " ")
    requires st != "" && 'x' !in st && forall c :: c in st ==> SourcetypeChar(c)
    ensures var spl := INDEX + index + " " + (SOURCETYPE + st + post);
      && FindAll(spl, INDEX, IndexChar) == [index]
      && FindAll(spl, SOURCETYPE, SourcetypeChar) == [st]
      && Sub(Sub(spl, INDEX + index, INDEX + a, word), SOURCETYPE + st, SOURCETYPE + b, word)
        == INDEX + a + " " + (SOURCETYPE + b + post)
  {
    var tail := SOURCETYPE + st + post;
    var rest := " " + tail;
    assert INDEX + index + " " + tail == INDEX + index + rest;
    assert INDEX + a + " " + tail == INDEX + a + rest;
    assert 'x' !in SOURCETYPE;
    assert 'x' !in rest;
    IndexFound(index, rest);
    IndexReplaced(index, INDEX + a, rest, word);
    NoSourceIndex(index);
    SourcetypeFound(INDEX + index + " ", st, post);
    SourcetypeReplaced(INDEX + a + " ", st, SOURCETYPE + b, post, word);
  }

  lemma NoSourceIndex(index: string)
    requires NoSource(index)
    ensures NoSource(INDEX + index + " ")
  {
    var t := INDEX + index + " ";
    forall i | 0 <= i < |t| && t[i] == 's' ensures i + 1 < |t| && t[i + 1] != 'o' {
      assert |INDEX| <= i < |INDEX| + |index|;
      assert t[i] == index[i - |INDEX|] && t[i + 1] == index[i + 1 - |INDEX|];
    }
  }
}
