/**
 The backfill of local names for legacy agent profiles: a slug from the display
 name, a rank among the profiles of the workspace with the same slug, and a
 decimal suffix where slug, rank and the names already taken call for one.

 The table is a set of rows. A namespace is named rather than numbered, since a
 workspace has at most one of each name. Letters outside ASCII are not lower-cased.
 */
module FqnBackfill {
  import opened Options
  import opened Decimals
  import opened Text

  datatype Profile = Profile(
    id: nat, workspace: nat, displayName: Option<string>, localName: Option<string>,
    namespace: Option<string>, createdAt: int, deleted: bool)

  type Table = set<Profile>

  predicate UniqueIds(rows: Table) {
    forall p, q :: p in rows && q in rows && p.id == q.id ==> p == q
  }

  // ---------- Slugs ----------

  predicate IsSlugAlnum(c: char) {
    'a' <= c <= 'z' || '0' <= c <= '9'
  }

  /** Lower-casing, with every run of other characters replaced by one hyphen. */
  function Collapse(s: string, inRun: bool): string {
    if s == "" then ""
    else if IsSlugAlnum(LowerChar(s[0])) then [LowerChar(s[0])] + Collapse(s[1..], false)
    else if inRun then Collapse(s[1..], true)
    else "-" + Collapse(s[1..], true)
  }

  function NonEmpty(s: Option<string>): Option<string> {
    if s == Some("") then None else s
  }

  function SlugSource(p: Profile): string {
    if NonEmpty(p.displayName).Some? then p.displayName.value
    else if NonEmpty(p.localName).Some? then p.localName.value
    else "agent"
  }

  function Slug(p: Profile): (slug: string)
    ensures slug != ""
  {
    Collapse(SlugSource(p), false)
  }

  predicate IsSlug(s: string) {
    && (forall i :: 0 <= i < |s| ==> IsSlugAlnum(s[i]) || s[i] == '-')
    && (forall i :: 0 <= i < |s| - 1 ==> s[i] != '-' || s[i + 1] != '-')
  }

  lemma {:induction false} CollapseShape(s: string, inRun: bool)
    ensures IsSlug(Collapse(s, inRun))
    ensures inRun && Collapse(s, inRun) != "" ==> Collapse(s, inRun)[0] != '-'
    decreases |s|
  {
    if s != "" {
      CollapseShape(s[1..], false);
      CollapseShape(s[1..], true);
    }
  }

  /** A slug is non-empty lower-case text with single hyphens, and slugging it again changes nothing. */
  lemma {:induction false} CollapseIdempotent(s: string, inRun: bool)
    requires IsSlug(s) && (inRun ==> s == "" || s[0] != '-')
    ensures Collapse(s, inRun) == s
    decreases |s|
  {
    if s != "" {
      assert IsSlug(s[1..]);
      CollapseIdempotent(s[1..], s[0] == '-');
    }
  }

  // ---------- Ranks and counts ----------

  predicate IsLegacy(p: Profile) {
    p.namespace.None? && !p.deleted
  }

  /** The order of creation, ties broken by id. */
  predicate AtOrBefore(p: Profile, q: Profile) {
    p.createdAt < q.createdAt || (p.createdAt == q.createdAt && p.id <= q.id)
  }

  ghost function Cohort(rows: Table, workspace: nat, slug: string): set<Profile> {
    set p | p in rows && IsLegacy(p) && p.workspace == workspace && Slug(p) == slug
  }

  ghost function RankIn(cohort: set<Profile>, p: Profile): nat {
    |set q | q in cohort && AtOrBefore(q, p)|
  }

  /** The live names already taken in the default namespace of a workspace. */
  ghost function Taken(rows: Table, workspace: nat, name: string): set<Profile> {
    set p | p in rows && !p.deleted && p.workspace == workspace && p.namespace == Some("default") && p.localName == Some(name)
  }

  ghost function Number(rows: Table, p: Profile): nat {
    |Taken(rows, p.workspace, Slug(p))| + RankIn(Cohort(rows, p.workspace, Slug(p)), p)
  }

  function Suffixed(slug: string, n: nat): string {
    if n == 1 then slug else slug + "-" + Decimal(n)
  }

  ghost function FinalName(rows: Table, p: Profile): string {
    Suffixed(Slug(p), Number(rows, p))
  }

  ghost function Upgraded(rows: Table, p: Profile): Profile {
    if IsLegacy(p) then p.(namespace := Some("default"), localName := Some(FinalName(rows, p))) else p
  }

  // ---------- Ranks number a cohort from 1 to its size ----------

  lemma SubsetSize<T>(a: set<T>, b: set<T>)
    requires a <= b
    ensures |a| <= |b|
    ensures a != b ==> |a| < |b|
  {
    assert b == a + (b - a);
  }

  lemma RanksDiffer(cohort: set<Profile>, p: Profile, q: Profile)
    requires UniqueIds(cohort) && p in cohort && q in cohort && p != q
    ensures RankIn(cohort, p) != RankIn(cohort, q)
  {
    var a, b := set x | x in cohort && AtOrBefore(x, p), set x | x in cohort && AtOrBefore(x, q);
    if AtOrBefore(p, q) {
      assert q !in a && q in b && a <= b;
      SubsetSize(a, b);
    } else {
      assert p !in b && p in a && b <= a;
      SubsetSize(b, a);
    }
  }

  lemma RankBounds(cohort: set<Profile>, p: Profile)
    requires p in cohort
    ensures 1 <= RankIn(cohort, p) <= |cohort|
  {
    var a := set x | x in cohort && AtOrBefore(x, p);
    assert p in a;
    SubsetSize({p}, a);
    SubsetSize(a, cohort);
  }

  lemma {:induction false} LastOf(cohort: set<Profile>) returns (m: Profile)
    requires cohort != {}
    ensures m in cohort && forall p :: p in cohort ==> AtOrBefore(p, m)
    decreases cohort
  {
    var x :| x in cohort;
    var rest := cohort - {x};
    m := x;
    if rest != {} {
      var n := LastOf(rest);
      m := if AtOrBefore(x, n) then n else x;
      forall p | p in cohort
        ensures AtOrBefore(p, m)
      {
        assert p == x || p in rest;
      }
    } else {
      assert forall p :: p in cohort ==> p == x || p in rest;
    }
  }

  /** Every number from 1 to the size of the cohort is some member's rank. */
  lemma {:induction false} RankReached(cohort: set<Profile>, k: nat) returns (p: Profile)
    requires UniqueIds(cohort) && 1 <= k <= |cohort|
    ensures p in cohort && RankIn(cohort, p) == k
    decreases cohort
  {
    var m := LastOf(cohort);
    if k == |cohort| {
      p := m;
      assert (set q | q in cohort && AtOrBefore(q, m)) == cohort;
    } else {
      var rest := cohort - {m};
      p := RankReached(rest, k);
      assert (set q | q in cohort && AtOrBefore(q, p)) == (set q | q in rest && AtOrBefore(q, p));
    }
  }

  // ---------- Suffixes ----------

  /** The numbers are plain digits, so the last hyphen shows where a suffix begins. */
  lemma SuffixInjective(a: string, m: nat, b: string, n: nat)
    requires m != 1 && n != 1 && Suffixed(a, m) == Suffixed(b, n)
    ensures a == b && m == n
  {
    var s, x, y := Suffixed(a, m), Decimal(m), Decimal(n);
    assert s == a + "-" + x && s == b + "-" + y;
    assert s[|a|] == '-' && s[|b|] == '-';
    assert forall i :: |a| < i < |s| ==> s[i] == x[i - |a| - 1];
    assert forall i :: |b| < i < |s| ==> s[i] == y[i - |b| - 1];
    assert |a| == |b|;
    assert a == s[..|a|] && b == s[..|b|] && x == s[|a| + 1..] && y == s[|b| + 1..];
    DecimalInjective(m, n);
  }

  // ---------- When the assigned names are free ----------

  /** No two profiles of a workspace get the same name, and none gets a name that is already taken. */
  ghost predicate NamesAreFree(rows: Table) {
    && (forall p, q :: p in rows && q in rows && IsLegacy(p) && IsLegacy(q) && p.workspace == q.workspace && p != q
          ==> FinalName(rows, p) != FinalName(rows, q))
    && (forall p :: p in rows && IsLegacy(p) ==> Taken(rows, p.workspace, FinalName(rows, p)) == {})
  }

  /** Number n is handed out, with a suffix, to some profile of the workspace with this slug. */
  ghost predicate HandsOut(rows: Table, workspace: nat, slug: string, n: nat) {
    var taken, size := |Taken(rows, workspace, slug)|, |Cohort(rows, workspace, slug)|;
    n >= 2 && taken + 1 <= n <= taken + size
  }

  /**
   What can be checked beforehand, by counting: no suffixed name that will be handed
   out is already taken, or is itself the slug of a profile that will get it bare.
   */
  ghost predicate NoClash(rows: Table) {
    forall workspace: nat, slug, n: nat :: HandsOut(rows, workspace, slug, n) ==>
      && Taken(rows, workspace, Suffixed(slug, n)) == {}
      && Cohort(rows, workspace, Suffixed(slug, n)) == {}
  }

  lemma NumberIsHandedOut(rows: Table, p: Profile)
    requires p in rows && IsLegacy(p)
    ensures Number(rows, p) >= 1
    ensures Number(rows, p) >= 2 ==> HandsOut(rows, p.workspace, Slug(p), Number(rows, p))
    ensures Number(rows, p) == 1 ==> Taken(rows, p.workspace, Slug(p)) == {}
  {
    RankBounds(Cohort(rows, p.workspace, Slug(p)), p);
  }

  lemma SameSlugDiffers(rows: Table, p: Profile, q: Profile)
    requires UniqueIds(rows) && p in rows && q in rows && IsLegacy(p) && IsLegacy(q) && p != q
    requires p.workspace == q.workspace && Slug(p) == Slug(q)
    ensures FinalName(rows, p) != FinalName(rows, q)
  {
    RanksDiffer(Cohort(rows, p.workspace, Slug(p)), p, q);
    if Number(rows, p) != 1 && Number(rows, q) != 1 && FinalName(rows, p) == FinalName(rows, q) {
      SuffixInjective(Slug(p), Number(rows, p), Slug(q), Number(rows, q));
      assert false;
    }
  }

  lemma OtherSlugDiffers(rows: Table, p: Profile, q: Profile)
    requires NoClash(rows) && p in rows && q in rows && IsLegacy(p) && IsLegacy(q)
    requires p.workspace == q.workspace && Slug(p) != Slug(q)
    ensures FinalName(rows, p) != FinalName(rows, q)
  {
    var m, n := Number(rows, p), Number(rows, q);
    NumberIsHandedOut(rows, p);
    NumberIsHandedOut(rows, q);
    assert p in Cohort(rows, p.workspace, Slug(p)) && q in Cohort(rows, q.workspace, Slug(q));
    if m != 1 && n != 1 && FinalName(rows, p) == FinalName(rows, q) {
      SuffixInjective(Slug(p), m, Slug(q), n);
      assert false;
    }
  }

  lemma NoClashSuffices(rows: Table)
    requires UniqueIds(rows) && NoClash(rows)
    ensures NamesAreFree(rows)
  {
    forall p, q | p in rows && q in rows && IsLegacy(p) && IsLegacy(q) && p.workspace == q.workspace && p != q
      ensures FinalName(rows, p) != FinalName(rows, q)
    {
      if Slug(p) == Slug(q) {
        SameSlugDiffers(rows, p, q);
      } else {
        OtherSlugDiffers(rows, p, q);
      }
    }
    forall p | p in rows && IsLegacy(p)
      ensures Taken(rows, p.workspace, FinalName(rows, p)) == {}
    {
      NumberIsHandedOut(rows, p);
    }
  }

  /** Some profile gets the suffixed name. */
  lemma SomeoneGetsIt(rows: Table, workspace: nat, slug: string, n: nat) returns (p: Profile)
    requires UniqueIds(rows) && HandsOut(rows, workspace, slug, n)
    ensures p in Cohort(rows, workspace, slug) && FinalName(rows, p) == Suffixed(slug, n)
  {
    p := RankReached(Cohort(rows, workspace, slug), n - |Taken(rows, workspace, slug)|);
  }

  /** When no name is taken, some profile with this slug gets it bare. */
  lemma SomeoneGetsItBare(rows: Table, workspace: nat, slug: string) returns (p: Profile)
    requires UniqueIds(rows) && Cohort(rows, workspace, slug) != {} && Taken(rows, workspace, slug) == {}
    ensures p in Cohort(rows, workspace, slug) && FinalName(rows, p) == slug
  {
    SubsetSize({}, Cohort(rows, workspace, slug));
    p := RankReached(Cohort(rows, workspace, slug), 1);
  }

  lemma NoClashIsNeeded(rows: Table, workspace: nat, slug: string, n: nat)
    requires UniqueIds(rows) && NamesAreFree(rows) && HandsOut(rows, workspace, slug, n)
    ensures Taken(rows, workspace, Suffixed(slug, n)) == {}
    ensures Cohort(rows, workspace, Suffixed(slug, n)) == {}
  {
    var name := Suffixed(slug, n);
    var p := SomeoneGetsIt(rows, workspace, slug, n);
    assert |name| > |slug|;
    if Cohort(rows, workspace, name) != {} {
      var q := SomeoneGetsItBare(rows, workspace, name);
      assert false;
    }
  }

  /**
   The assigned names of every workspace are pairwise distinct and free exactly when
   the counts show no clash, for any number of profiles.
   */
  lemma NamesAreFreeIff(rows: Table)
    requires UniqueIds(rows)
    ensures NamesAreFree(rows) <==> NoClash(rows)
  {
    if NoClash(rows) {
      NoClashSuffices(rows);
    }
    if NamesAreFree(rows) {
      forall workspace: nat, slug, n: nat | HandsOut(rows, workspace, slug, n)
        ensures Taken(rows, workspace, Suffixed(slug, n)) == {}
        ensures Cohort(rows, workspace, Suffixed(slug, n)) == {}
      {
        NoClashIsNeeded(rows, workspace, slug, n);
      }
    }
  }

  ghost function UpgradedTable(rows: Table): Table {
    set p | p in rows :: Upgraded(rows, p)
  }

  predicate InDefault(p: Profile) {
    !p.deleted && p.namespace == Some("default") && p.localName.Some?
  }

  /** Live profiles in the default namespace of one workspace have different names. */
  ghost predicate UniqueNames(rows: Table) {
    forall p, q :: p in rows && q in rows && InDefault(p) && InDefault(q) && p.workspace == q.workspace && p.localName == q.localName
      ==> p == q
  }

  lemma TakenIsInDefault(rows: Table, p: Profile)
    requires p in rows && InDefault(p)
    ensures p in Taken(rows, p.workspace, p.localName.value)
  {
  }

  lemma FreeNamesStayUnique(rows: Table)
    requires UniqueIds(rows) && UniqueNames(rows) && NamesAreFree(rows)
    ensures UniqueNames(UpgradedTable(rows))
  {
    forall u, v | u in UpgradedTable(rows) && v in UpgradedTable(rows) && InDefault(u) && InDefault(v)
                  && u.workspace == v.workspace && u.localName == v.localName
      ensures u == v
    {
      var p :| p in rows && u == Upgraded(rows, p);
      var q :| q in rows && v == Upgraded(rows, q);
      if IsLegacy(p) && !IsLegacy(q) {
        TakenIsInDefault(rows, q);
        assert false;
      } else if IsLegacy(q) && !IsLegacy(p) {
        TakenIsInDefault(rows, p);
        assert false;
      }
    }
  }

  lemma UniqueNamesWereFree(rows: Table)
    requires UniqueIds(rows) && UniqueNames(UpgradedTable(rows))
    ensures NamesAreFree(rows)
  {
    forall p, q | p in rows && q in rows && IsLegacy(p) && p.workspace == q.workspace && p != q
                  && InDefault(Upgraded(rows, q))
      ensures Upgraded(rows, q).localName != Some(FinalName(rows, p))
    {
      var u, v := Upgraded(rows, p), Upgraded(rows, q);
      assert u in UpgradedTable(rows) && v in UpgradedTable(rows) && u.id != v.id;
    }
    forall p, q | p in rows && q in rows && IsLegacy(p) && IsLegacy(q) && p.workspace == q.workspace && p != q
      ensures FinalName(rows, p) != FinalName(rows, q)
    {
      assert InDefault(Upgraded(rows, q)) && Upgraded(rows, q).localName == Some(FinalName(rows, q));
    }
    forall p | p in rows && IsLegacy(p)
      ensures Taken(rows, p.workspace, FinalName(rows, p)) == {}
    {
      forall q | q in rows && InDefault(q) && q.workspace == p.workspace
        ensures q.localName != Some(FinalName(rows, p))
      {
        assert q != p && Upgraded(rows, q) == q;
      }
    }
  }

  /**
   The migration as a whole: if the names in the default namespaces were unique before
   it, they are unique after it exactly when the counts show no clash; and it leaves
   no live profile without a namespace, so running it again assigns nothing.
   */
  lemma UpgradeKeepsNamesUnique(rows: Table)
    requires UniqueIds(rows) && UniqueNames(rows)
    ensures UniqueNames(UpgradedTable(rows)) <==> NoClash(rows)
    ensures forall p :: p in UpgradedTable(rows) ==> !IsLegacy(p)
  {
    NamesAreFreeIff(rows);
    if NamesAreFree(rows) {
      FreeNamesStayUnique(rows);
    }
    if UniqueNames(UpgradedTable(rows)) {
      UniqueNamesWereFree(rows);
    }
  }

  /** A simpler condition that suffices: no slug or taken name is a slug of the workspace with a number after it. */
  lemma NoNumberedNamesSuffices(rows: Table)
    requires UniqueIds(rows)
    requires forall p, x, n: nat :: p in rows && IsLegacy(p) && x in rows && !x.deleted && x.workspace == p.workspace && n >= 2 ==>
               && (IsLegacy(x) ==> Slug(x) != Suffixed(Slug(p), n))
               && (x.namespace == Some("default") ==> x.localName != Some(Suffixed(Slug(p), n)))
    ensures NamesAreFree(rows)
  {
    forall workspace: nat, slug, n: nat | HandsOut(rows, workspace, slug, n)
      ensures Taken(rows, workspace, Suffixed(slug, n)) == {}
      ensures Cohort(rows, workspace, Suffixed(slug, n)) == {}
    {
      var cohort := Cohort(rows, workspace, slug);
      assert cohort != {};
      var p :| p in cohort;
      assert forall x :: x in Taken(rows, workspace, Suffixed(slug, n)) ==> x in rows && x.localName == Some(Suffixed(Slug(p), n));
      assert forall x :: x in Cohort(rows, workspace, Suffixed(slug, n)) ==> x in rows && Slug(x) == Suffixed(Slug(p), n);
    }
    NoClashSuffices(rows);
  }

  // ---------- A clash ----------

  function Named(id: nat, name: string): Profile {
    Profile(id, 0, Some(name), None, None, id, false)
  }

  lemma SlugOfWords()
    ensures Slug(Named(1, "A")) == "a" && Slug(Named(2, "a")) == "a" && Slug(Named(3, "A 2")) == "a-2"
  {
    assert "A"[1..] == "" && "a"[1..] == "" && "A 2"[1..] == " 2" && " 2"[1..] == "2" && "2"[1..] == "";
    assert Collapse("2", true) == "2" && Collapse(" 2", false) == "-" + "2";
  }

  lemma SuffixTwo()
    ensures Suffixed("a", 2) == "a-2"
  {
    assert Decimal(2) == "2";
  }

  lemma ClashNumbers(rows: Table)
    requires rows == {Named(1, "A"), Named(2, "a"), Named(3, "A 2")}
    ensures Number(rows, Named(1, "A")) == 1 && Number(rows, Named(2, "a")) == 2 && Number(rows, Named(3, "A 2")) == 1
  {
    var a, b, c := Named(1, "A"), Named(2, "a"), Named(3, "A 2");
    SlugOfWords();
    assert Cohort(rows, 0, "a") == {a, b} && Cohort(rows, 0, "a-2") == {c};
    RankFromSet({a, b}, a, {a});
    RankFromSet({a, b}, b, {a, b});
    RankFromSet({c}, c, {c});
    assert Taken(rows, 0, "a") == {} && Taken(rows, 0, "a-2") == {};
  }

  /** Profiles displayed as "A", "a" and "A 2" are named "a", "a-2" and "a-2". */
  lemma NumberedNameClashes(rows: Table)
    requires rows == {Named(1, "A"), Named(2, "a"), Named(3, "A 2")}
    ensures UniqueIds(rows) && !NamesAreFree(rows)
    ensures FinalName(rows, Named(1, "A")) == "a"
    ensures FinalName(rows, Named(2, "a")) == "a-2" && FinalName(rows, Named(3, "A 2")) == "a-2"
  {
    SlugOfWords();
    SuffixTwo();
    ClashNumbers(rows);
    assert Named(2, "a") in rows && Named(3, "A 2") in rows && Named(2, "a") != Named(3, "A 2");
  }

  lemma RankFromSet(cohort: set<Profile>, p: Profile, upTo: set<Profile>)
    requires forall q :: q in upTo <==> q in cohort && AtOrBefore(q, p)
    ensures RankIn(cohort, p) == |upTo|
  {
    assert upTo == set q | q in cohort && AtOrBefore(q, p);
  }

  // ---------- In plain terms ----------

  /** What a slug is made from: the display name, else the local name, else "agent"; an empty name counts as none. */
  lemma SlugFrom(p: Profile)
    ensures p.displayName.Some? && p.displayName.value != "" ==> Slug(p) == Collapse(p.displayName.value, false)
    ensures (p.displayName == None || p.displayName == Some("")) && p.localName.Some? && p.localName.value != "" ==>
              Slug(p) == Collapse(p.localName.value, false)
    ensures (p.displayName == None || p.displayName == Some("")) && (p.localName == None || p.localName == Some("")) ==>
              Slug(p) == "agent"
  {
    AgentIsSlug();
  }

  lemma AgentIsSlug()
    ensures Collapse("agent", false) == "agent"
  {
    CollapseIdempotent("agent", false);
  }

  /** Slugging, run by run: letters and digits in lower case, one hyphen for each run of anything else. */
  lemma CollapseRuns(c: char, s: string)
    ensures Collapse("", false) == "" && Collapse("", true) == ""
    ensures 'a' <= c <= 'z' || '0' <= c <= '9' ==> forall inRun :: Collapse([c] + s, inRun) == [c] + Collapse(s, false)
    ensures 'A' <= c <= 'Z' ==> forall inRun :: Collapse([c] + s, inRun) == [(c as int + 32) as char] + Collapse(s, false)
    ensures !('a' <= c <= 'z' || 'A' <= c <= 'Z' || '0' <= c <= '9') ==>
              Collapse([c] + s, false) == "-" + Collapse(s, true) && Collapse([c] + s, true) == Collapse(s, true)
  {
    assert ([c] + s)[1..] == s;
  }

  /**
   A live profile without a namespace gets the default one and its slug, with a number unless the
   number is one: the live profiles already named by the slug in the default namespace of its
   workspace, and those of the same slug that get a name there too and were created no later,
   ties by id, itself among them. Every other profile stays as it is.
   */
  lemma UpgradedExactly(rows: Table, p: Profile)
    ensures var taken := set q | q in rows && !q.deleted && q.workspace == p.workspace
                                 && q.namespace == Some("default") && q.localName == Some(Slug(p));
            var earlier := set q | q in rows && q.namespace == None && !q.deleted && q.workspace == p.workspace
                                   && Slug(q) == Slug(p)
                                   && (q.createdAt < p.createdAt || (q.createdAt == p.createdAt && q.id <= p.id));
            var n := |taken| + |earlier|;
            Upgraded(rows, p) ==
              if p.namespace == None && !p.deleted
              then p.(namespace := Some("default"), localName := Some(if n == 1 then Slug(p) else Slug(p) + "-" + Decimal(n)))
              else p
  {
    var earlier := set q | q in rows && q.namespace == None && !q.deleted && q.workspace == p.workspace
                           && Slug(q) == Slug(p)
                           && (q.createdAt < p.createdAt || (q.createdAt == p.createdAt && q.id <= p.id));
    assert earlier == set q | q in Cohort(rows, p.workspace, Slug(p)) && AtOrBefore(q, p);
    assert Taken(rows, p.workspace, Slug(p)) == set q | q in rows && !q.deleted && q.workspace == p.workspace
                                                       && q.namespace == Some("default") && q.localName == Some(Slug(p));
  }

  /** Of two profiles with the same slug the one created earlier, or with the smaller id, gets the smaller number. */
  lemma EarlierIsSmaller(rows: Table, p: Profile, q: Profile)
    requires UniqueIds(rows) && p in rows && q in rows && IsLegacy(p) && IsLegacy(q)
    requires p.workspace == q.workspace && Slug(p) == Slug(q)
    requires p.createdAt < q.createdAt || (p.createdAt == q.createdAt && p.id < q.id)
    ensures Number(rows, p) < Number(rows, q)
  {
    var cohort := Cohort(rows, p.workspace, Slug(p));
    var a, b := set x | x in cohort && AtOrBefore(x, p), set x | x in cohort && AtOrBefore(x, q);
    assert a <= b && q in b && q !in a;
    SubsetSize(a, b);
  }
}
