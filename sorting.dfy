/**
 * The ordering of the organization list in
 * gsoc-guide/src/components/OrganizationsLayout.tsx: organizations with
 * proposals first, then the others, each group sorted by name or by
 * descending project count. The library `sort` is stable; it is modelled
 * by a stable insertion sort on values.
 */
module Sorting {
  import opened Text
  import opened Seqs
  import opened Domain

  /** The two options of the sort selector: `'name'` and `'projectCount'`. */
  datatype SortKey = ByName | ByProjectCount

  /** `org.num_projects || 0`: a missing count, like a zero one, counts as 0. */
  function ProjectCount(o: Organization): (r: int)
    ensures r == 0 <==> o.numProjects == None || o.numProjects == Some(0)
    ensures r != 0 ==> o.numProjects == Some(r)
  {
    match o.numProjects
    case Some(n) => n
    case None => 0
  }

  /**
   * `a` may come before `b`: the comparator returns at most 0, that is
   * `a.name.localeCompare(b.name) <= 0`, or `(b.num_projects || 0) -
   * (a.num_projects || 0) <= 0`.
   */
  predicate InOrder(key: SortKey, a: Organization, b: Organization)
    ensures SameKey(key, a, b) ==> InOrder(key, a, b)
  {
    match key
    case ByName => NameLeTotal(a.name, b.name); NameLe(a.name, b.name)
    case ByProjectCount => ProjectCount(a) >= ProjectCount(b)
  }

  /** The two organizations have the same name, or the same project count. */
  predicate SameKey(key: SortKey, a: Organization, b: Organization)
  {
    match key
    case ByName => a.name == b.name
    case ByProjectCount => ProjectCount(a) == ProjectCount(b)
  }

  /** The comparator returns 0 exactly for organizations with the same name, or the same project count. */
  lemma InOrderTies(key: SortKey, a: Organization, b: Organization)
    ensures InOrder(key, a, b) && InOrder(key, b, a) <==> SameKey(key, a, b)
  {
    if key == ByName && InOrder(key, a, b) && InOrder(key, b, a) {
      NameLeAntisymmetric(a.name, b.name);
    }
  }

  lemma InOrderTotal(key: SortKey, a: Organization, b: Organization)
    ensures InOrder(key, a, b) || InOrder(key, b, a)
  {
    if key == ByName {
      NameLeTotal(a.name, b.name);
    }
  }

  lemma InOrderTransitive(key: SortKey, a: Organization, b: Organization, c: Organization)
    requires InOrder(key, a, b) && InOrder(key, b, c)
    ensures InOrder(key, a, c)
  {
    if key == ByName {
      NameLeTransitive(a.name, b.name, c.name);
    }
  }

  predicate SortedBy(key: SortKey, s: seq<Organization>)
  {
    forall i, j :: 0 <= i < j < |s| ==> InOrder(key, s[i], s[j])
  }

  /** An element that may precede the head of a sorted sequence may precede all of it. */
  lemma PrecedesAll(key: SortKey, x: Organization, s: seq<Organization>)
    requires SortedBy(key, s) && s != [] && InOrder(key, x, s[0])
    ensures forall j :: 0 <= j < |s| ==> InOrder(key, x, s[j])
  {
    forall j | 0 < j < |s| ensures InOrder(key, x, s[j]) {
      InOrderTransitive(key, x, s[0], s[j]);
    }
  }

  /** The head of a sorted sequence may precede anything drawn from its tail or `x`, when it may precede `x`. */
  lemma HeadPrecedes(key: SortKey, x: Organization, s: seq<Organization>, tail: seq<Organization>)
    requires SortedBy(key, s) && s != [] && InOrder(key, s[0], x)
    requires forall y :: y in tail ==> y == x || y in s[1..]
    ensures forall j :: 0 <= j < |tail| ==> InOrder(key, s[0], tail[j])
  {
    forall j | 0 <= j < |tail| ensures InOrder(key, s[0], tail[j]) {
      var y := tail[j];
      assert y in tail;
      if y != x {
        var k :| 0 <= k < |s[1..]| && s[1..][k] == y;
        assert s[k + 1] == y;
      }
    }
  }

  /** `x` inserted ahead of the first element of `s` it may precede. */
  function Insert(key: SortKey, x: Organization, s: seq<Organization>): (r: seq<Organization>)
    ensures |r| == |s| + 1 && forall y :: y in r <==> y == x || y in s
    decreases |s|
  {
    if s == [] then [x]
    else if InOrder(key, x, s[0]) then [x] + s
    else
      assert s == [s[0]] + s[1..];
      [s[0]] + Insert(key, x, s[1..])
  }

  /** Inserting into a sorted sequence keeps it sorted. */
  lemma {:induction false} InsertSorted(key: SortKey, x: Organization, s: seq<Organization>)
    requires SortedBy(key, s)
    ensures SortedBy(key, Insert(key, x, s))
    decreases |s|
  {
    if s != [] {
      if InOrder(key, x, s[0]) {
        PrecedesAll(key, x, s);
      } else {
        assert SortedBy(key, s[1..]);
        InsertSorted(key, x, s[1..]);
        InOrderTotal(key, x, s[0]);
        assert s == [s[0]] + s[1..];
        HeadPrecedes(key, x, s, Insert(key, x, s[1..]));
      }
    }
  }

  /** Inserting adds exactly one occurrence of `x` and keeps every other element as often as it was. */
  lemma {:induction false} InsertPermutes(key: SortKey, x: Organization, s: seq<Organization>)
    ensures multiset(Insert(key, x, s)) == multiset(s) + multiset{x}
    decreases |s|
  {
    if s != [] && !InOrder(key, x, s[0]) {
      InsertPermutes(key, x, s[1..]);
      assert s == [s[0]] + s[1..];
    }
  }

  /** `s.sort(comparator)`: each element of `s` inserted, last to first, into the sorted rest. */
  function Sort(key: SortKey, s: seq<Organization>): (r: seq<Organization>)
    ensures |r| == |s| && forall y :: y in r <==> y in s
    decreases |s|
  {
    if s == [] then []
    else
      assert s == [s[0]] + s[1..];
      Insert(key, s[0], Sort(key, s[1..]))
  }

  /** The sorted sequence is in comparator order. */
  lemma {:induction false} SortSorted(key: SortKey, s: seq<Organization>)
    ensures SortedBy(key, Sort(key, s))
    decreases |s|
  {
    if s != [] {
      SortSorted(key, s[1..]);
      InsertSorted(key, s[0], Sort(key, s[1..]));
    }
  }

  /** Sorting is a permutation: every element occurs as often as in `s`. */
  lemma {:induction false} SortPermutes(key: SortKey, s: seq<Organization>)
    ensures multiset(Sort(key, s)) == multiset(s)
    decreases |s|
  {
    if s != [] {
      SortPermutes(key, s[1..]);
      InsertPermutes(key, s[0], Sort(key, s[1..]));
      assert s == [s[0]] + s[1..];
    }
  }

  /** The organizations the comparator ties with `p`: it returns 0 for them both ways. */
  function TiedWith(key: SortKey, p: Organization): Organization -> bool
  {
    (o: Organization) => InOrder(key, o, p) && InOrder(key, p, o)
  }

  /**
   * Inserting `x` puts it ahead of every element tied with it: among the
   * elements tied with `p`, `x` comes first when it is one of them, and
   * the others keep their order.
   */
  lemma {:induction false} InsertKeepsTieOrder(key: SortKey, x: Organization, t: seq<Organization>, p: Organization)
    ensures Filter(TiedWith(key, p), Insert(key, x, t))
      == if TiedWith(key, p)(x) then [x] + Filter(TiedWith(key, p), t) else Filter(TiedWith(key, p), t)
    decreases |t|
  {
    var q := TiedWith(key, p);
    if t != [] {
      if InOrder(key, x, t[0]) {
        assert ([x] + t)[1..] == t;
      } else {
        InsertKeepsTieOrder(key, x, t[1..], p);
        var tail := Insert(key, x, t[1..]);
        assert ([t[0]] + tail)[1..] == tail;
        if q(x) && q(t[0]) {
          InOrderTransitive(key, x, p, t[0]);
          assert false;
        }
      }
    }
  }

  /**
   * `sort` is stable: the organizations the comparator ties with `p`
   * come out in the order they went in.
   */
  lemma {:induction false} SortStable(key: SortKey, s: seq<Organization>, p: Organization)
    ensures Filter(TiedWith(key, p), Sort(key, s)) == Filter(TiedWith(key, p), s)
    decreases |s|
  {
    if s != [] {
      SortStable(key, s[1..], p);
      InsertKeepsTieOrder(key, s[0], Sort(key, s[1..]), p);
    }
  }

  predicate HasProposals(o: Organization)
  {
    o.hasProposals
  }

  predicate LacksProposals(o: Organization)
  {
    !o.hasProposals
  }

  /** Every organization with proposals precedes every one without. */
  predicate ProposalsFirst(r: seq<Organization>)
  {
    forall i, j :: 0 <= i < |r| && 0 <= j < |r| && r[i].hasProposals && !r[j].hasProposals ==> i < j
  }

  /** Within each of the two groups the organizations are in `key` order. */
  predicate GroupsSortedBy(key: SortKey, r: seq<Organization>)
  {
    forall i, j :: 0 <= i < j < |r| && r[i].hasProposals == r[j].hasProposals ==> InOrder(key, r[i], r[j])
  }

  /** Two sorted groups, flagged and unflagged, joined in that order. */
  lemma JoinGroups(key: SortKey, a: seq<Organization>, b: seq<Organization>)
    requires SortedBy(key, a) && SortedBy(key, b)
    requires forall x :: x in a ==> x.hasProposals
    requires forall x :: x in b ==> !x.hasProposals
    ensures ProposalsFirst(a + b) && GroupsSortedBy(key, a + b)
  {
    var r := a + b;
    assert forall i :: 0 <= i < |a| ==> r[i] == a[i] && a[i] in a;
    assert forall i :: |a| <= i < |r| ==> r[i] == b[i - |a|] && b[i - |a|] in b;
  }

  /**
   * `sortOrganizations`: a permutation of `orgs` in which every
   * organization with proposals precedes every one without, and each of
   * the two groups is in `key` order.
   */
  function SortOrganizations(orgs: seq<Organization>, key: SortKey): (r: seq<Organization>)
    ensures ProposalsFirst(r)
    ensures GroupsSortedBy(key, r)
  {
    var withProposals := Sort(key, Filter(HasProposals, orgs));
    var withoutProposals := Sort(key, Filter(LacksProposals, orgs));
    SortSorted(key, Filter(HasProposals, orgs));
    SortSorted(key, Filter(LacksProposals, orgs));
    JoinGroups(key, withProposals, withoutProposals);
    withProposals + withoutProposals
  }

  /** `sortOrganizationsByProposalsAndName`: the proposals-first order with both groups by name. */
  function SortByProposalsAndName(orgs: seq<Organization>): (r: seq<Organization>)
    ensures ProposalsFirst(r)
    ensures forall i, j :: 0 <= i < j < |r| && r[i].hasProposals == r[j].hasProposals ==> NameLe(r[i].name, r[j].name)
  {
    var r := SortOrganizations(orgs, ByName);
    assert GroupsSortedBy(ByName, r);
    r
  }

  /** `sortOrganizations` returns a permutation of the list: nothing added, nothing dropped, nothing doubled. */
  lemma SortOrganizationsPermutes(orgs: seq<Organization>, key: SortKey)
    ensures multiset(SortOrganizations(orgs, key)) == multiset(orgs)
  {
    FilterSplit(HasProposals, LacksProposals, orgs);
    SortPermutes(key, Filter(HasProposals, orgs));
    SortPermutes(key, Filter(LacksProposals, orgs));
  }

  /** The organizations in the same group as `p` that the comparator ties with it. */
  function SameGroupTiedWith(key: SortKey, p: Organization): Organization -> bool
  {
    (o: Organization) => o.hasProposals == p.hasProposals && TiedWith(key, p)(o)
  }

  /**
   * `sortOrganizations` is stable: organizations of one group that the
   * comparator ties keep their relative order.
   */
  lemma SortOrganizationsStable(orgs: seq<Organization>, key: SortKey, p: Organization)
    ensures Filter(SameGroupTiedWith(key, p), SortOrganizations(orgs, key)) == Filter(SameGroupTiedWith(key, p), orgs)
  {
    var q, q' := TiedWith(key, p), SameGroupTiedWith(key, p);
    var has, lacks := Filter(HasProposals, orgs), Filter(LacksProposals, orgs);
    var a, b := Sort(key, has), Sort(key, lacks);
    FilterConcat(q', a, b);
    SortStable(key, has, p);
    SortStable(key, lacks, p);
    if p.hasProposals {
      FilterAgree(q', q, a);
      FilterAgree(q', q, has);
      FilterKeepsNone(q', b);
      FilterCompose(HasProposals, q, q', orgs);
    } else {
      FilterKeepsNone(q', a);
      FilterAgree(q', q, b);
      FilterAgree(q', q, lacks);
      FilterCompose(LacksProposals, q, q', orgs);
    }
  }

  /** Sorting the list keeps exactly its organizations. */
  lemma SortOrganizationsSameElements(orgs: seq<Organization>, key: SortKey)
    ensures forall o :: o in SortOrganizations(orgs, key) <==> o in orgs
  {
    var r := SortOrganizations(orgs, key);
    SortOrganizationsPermutes(orgs, key);
    assert forall o :: o in r <==> o in multiset(r);
    assert forall o :: o in orgs <==> o in multiset(orgs);
  }

  /** The organizations with proposals, shown first on the page. */
  function WithProposals(s: seq<Organization>): seq<Organization>
  {
    Filter(HasProposals, s)
  }

  /** The other organizations, shown after them. */
  function WithoutProposals(s: seq<Organization>): seq<Organization>
  {
    Filter(LacksProposals, s)
  }

  /** The display split partitions the list: nothing dropped, nothing shown twice. */
  lemma DisplaySplitPartitions(s: seq<Organization>)
    ensures multiset(WithProposals(s)) + multiset(WithoutProposals(s)) == multiset(s)
    ensures forall o :: o in WithProposals(s) ==> o.hasProposals
    ensures forall o :: o in WithoutProposals(s) ==> !o.hasProposals
  {
    FilterSplit(HasProposals, LacksProposals, s);
  }

  /** A flagged group followed by an unflagged one splits back into the two groups. */
  lemma SplitOfJoined(a: seq<Organization>, b: seq<Organization>)
    requires forall x :: x in a ==> x.hasProposals
    requires forall x :: x in b ==> !x.hasProposals
    ensures WithProposals(a + b) == a && WithoutProposals(a + b) == b
  {
    FilterConcat(HasProposals, a, b);
    FilterConcat(LacksProposals, a, b);
    FilterKeepsAll(HasProposals, a);
    FilterKeepsAll(LacksProposals, b);
    FilterKeepsNone(HasProposals, b);
    FilterKeepsNone(LacksProposals, a);
  }

  /** Splitting a sorted list for display gives back its two groups, in the sorted order. */
  lemma DisplaySplitOfSorted(orgs: seq<Organization>, key: SortKey)
    ensures WithProposals(SortOrganizations(orgs, key)) + WithoutProposals(SortOrganizations(orgs, key))
      == SortOrganizations(orgs, key)
  {
    var a := Sort(key, Filter(HasProposals, orgs));
    var b := Sort(key, Filter(LacksProposals, orgs));
    assert SortOrganizations(orgs, key) == a + b;
    SplitOfJoined(a, b);
  }
}
