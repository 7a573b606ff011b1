/** Freezing the digests of protected files and checking them later. */
module ExecutionBaseline {
  import opened Options
  import opened Ordering
  import opened PyText

  /** A protected file: its group and its path. */
  type Member = (string, string)

  /** Recorded digests; `None` records that the file was absent. */
  type Manifest = map<Member, Option<string>>

  const BUILD_OUTPUT := "frontend/dist/"

  /** The working tree: digests of the files that exist, and whether the build tree exists. */
  datatype Tree = Tree(digests: map<string, string>, built: bool)

  function DigestOf(t: Tree, path: string): Option<string> {
    if path in t.digests then Some(t.digests[path]) else None
  }

  /** `_collect` */
  function Collect(members: set<Member>, t: Tree): Manifest { map m | m in members :: DigestOf(t, m.1) }

  /** `_is_unbuilt_artifact` */
  predicate Unbuilt(t: Tree, path: string) { StartsWith(path, BUILD_OUTPUT) && !t.built }

  datatype Drift =
    | Unrecorded(m: Member)
    | Appeared(m: Member)
    | Deleted(m: Member)
    | Changed(m: Member)
    | MirrorsDiffer(group: string)

  /** What the comparison of one recorded member reports. */
  function MemberDrift(m: Member, recorded: Option<string>, current: Option<string>, t: Tree): set<Drift> {
    if recorded == current then {}
    else if recorded.None? then {Appeared(m)}
    else if current.None? then (if Unbuilt(t, m.1) then {} else {Deleted(m)})
    else {Changed(m)}
  }

  function Present(after: Manifest, group: string): set<string> {
    set m | m in after && m.0 == group && after[m].Some? :: after[m].value
  }

  /** `_check_mirrors` */
  function MirrorDrift(after: Manifest, groups: set<string>): set<Drift> {
    set g | g in groups && |Present(after, g)| > 1 :: MirrorsDiffer(g)
  }

  function Current(after: Manifest, m: Member): Option<string> { if m in after then after[m] else None }

  /** What the check is to report: declared members without a record, members that differ from
      their record, and mirror groups whose copies differ. */
  ghost predicate IsDrift(d: Drift, members: set<Member>, mirrors: set<string>, before: Manifest, t: Tree) {
    || (exists m :: m in members && m !in before && d == Unrecorded(m))
    || (exists m :: m in before && d in MemberDrift(m, before[m], Current(Collect(members, t), m), t))
    || d in MirrorDrift(Collect(members, t), mirrors)
  }

  ghost predicate Finds(drift: set<Drift>, members: set<Member>, mirrors: set<string>, before: Manifest, t: Tree) {
    forall d :: d in drift <==> IsDrift(d, members, mirrors, before, t)
  }

  /** `check` */
  method Check(members: set<Member>, mirrors: set<string>, before: Manifest, t: Tree) returns (drift: set<Drift>)
    ensures Finds(drift, members, mirrors, before, t)
    ensures drift == {} <==> Intact(members, mirrors, before, t)
  {
    var after := Collect(members, t);
    drift := {};
    var rest := members;
    while rest != {}
      invariant rest <= members
      invariant forall d :: d in drift <==> exists m :: m in members && m !in rest && m !in before && d == Unrecorded(m)
      decreases rest
    {
      var m :| m in rest;
      if m !in before { drift := drift + {Unrecorded(m)}; }
      rest := rest - {m};
    }
    ghost var unrecorded := drift;
    rest := before.Keys;
    while rest != {}
      invariant rest <= before.Keys
      invariant forall d :: d in drift <==>
        || d in unrecorded
        || exists m :: m in before && m !in rest && d in MemberDrift(m, before[m], Current(after, m), t)
      decreases rest
    {
      var m :| m in rest;
      var recorded, current := before[m], if m in after then after[m] else None;
      if recorded == current {
      } else if recorded.None? {
        drift := drift + {Appeared(m)};
      } else if current.None? {
        if !("frontend/dist/" <= m.1 && !t.built) { drift := drift + {Deleted(m)}; }
      } else {
        drift := drift + {Changed(m)};
      }
      rest := rest - {m};
    }
    drift := drift + MirrorDrift(after, mirrors);
    CheckCleanIff(members, mirrors, before, t, drift);
  }

  // ---------- what a clean check means ----------

  /** A present copy in a mirror group. */
  predicate Copy(members: set<Member>, t: Tree, group: string, m: Member) {
    m in members && m.0 == group && m.1 in t.digests
  }

  /** The present copies of a mirror group are identical. */
  ghost predicate MirrorsAgree(members: set<Member>, t: Tree, group: string) {
    forall a, b :: Copy(members, t, group, a) && Copy(members, t, group, b) ==> t.digests[a.1] == t.digests[b.1]
  }

  /** A recorded member is as it was, or is an output of a build that was not made here. */
  ghost predicate Settled(members: set<Member>, before: Manifest, t: Tree, m: Member)
    requires m in before
  {
    var now := if m in members then DigestOf(t, m.1) else None;
    before[m] == now || (now.None? && Unbuilt(t, m.1))
  }

  ghost predicate Intact(members: set<Member>, mirrors: set<string>, before: Manifest, t: Tree) {
    && (forall m :: m in members ==> m in before)
    && (forall m :: m in before ==> Settled(members, before, t, m))
    && (forall g :: g in mirrors ==> MirrorsAgree(members, t, g))
  }

  lemma MirrorsAgreeIff(members: set<Member>, t: Tree, group: string)
    ensures |Present(Collect(members, t), group)| <= 1 <==> MirrorsAgree(members, t, group)
  {
    var after := Collect(members, t);
    var present := Present(after, group);
    if MirrorsAgree(members, t, group) {
      if d :| d in present {
        forall e | e in present ensures e == d {
          var a :| a in after && a.0 == group && after[a].Some? && after[a].value == d;
          var b :| b in after && b.0 == group && after[b].Some? && after[b].value == e;
        }
        assert present == {d};
      }
    } else {
      var a, b :| Copy(members, t, group, a) && Copy(members, t, group, b) && t.digests[a.1] != t.digests[b.1];
      assert after[a].Some? && after[b].Some?;
      SubsetSize({t.digests[a.1], t.digests[b.1]}, present);
    }
  }

  /** The check reports nothing exactly when everything declared is recorded, everything recorded
      is unchanged or merely unbuilt, and the mirrors agree. */
  lemma CheckCleanIff(members: set<Member>, mirrors: set<string>, before: Manifest, t: Tree, drift: set<Drift>)
    requires Finds(drift, members, mirrors, before, t)
    ensures drift == {} <==> Intact(members, mirrors, before, t)
  {
    var after := Collect(members, t);
    forall m | m in before
        ensures MemberDrift(m, before[m], Current(after, m), t) == {} <==> Settled(members, before, t, m) {}
    forall g | g in mirrors ensures MirrorsDiffer(g) in MirrorDrift(after, mirrors) <==> !MirrorsAgree(members, t, g) {
      MirrorsAgreeIff(members, t, g);
    }
    if drift == {} {
      forall m | m in members ensures m in before { assert Unrecorded(m) !in drift; }
      forall m | m in before ensures Settled(members, before, t, m) {
        assert forall d :: d in MemberDrift(m, before[m], Current(after, m), t) ==> d in drift;
      }
      forall g | g in mirrors ensures MirrorsAgree(members, t, g) { assert MirrorsDiffer(g) !in drift; }
    }
    if Intact(members, mirrors, before, t) {
      forall d | d in drift ensures false {}
    }
  }

  /** A manifest captured just now checks clean exactly when the mirrors agree: capturing warns
      about differing mirrors but records them all the same. */
  lemma CaptureThenCheck(members: set<Member>, mirrors: set<string>, t: Tree)
    ensures Intact(members, mirrors, Collect(members, t), t)
        <==> forall g :: g in mirrors ==> MirrorsAgree(members, t, g)
  {
  }

  /** Two clean checks against one manifest bound what can have changed between them. */
  lemma CleanChecksAgree(members: set<Member>, mirrors: set<string>, before: Manifest, t: Tree, u: Tree, m: Member)
    requires Intact(members, mirrors, before, t) && Intact(members, mirrors, before, u) && m in members
    ensures DigestOf(t, m.1) == DigestOf(u, m.1)
         || (StartsWith(m.1, BUILD_OUTPUT) && (!t.built || !u.built))
  {
    assert Settled(members, before, t, m) && Settled(members, before, u, m);
  }
}
