/**
 * The two ways Parser.cpp turns a written class name into a class id.
 *
 * A header keeps its namespaces outermost first (push_back, Parser.cpp:251), a
 * source file innermost first (push_front, Parser.cpp:480), so each side has
 * its own way of building a fully qualified name: `Join` for the first and
 * `JoinRev` for the second.
 *
 * The base-class resolver of a header (Parser.cpp:317-398) and the accepted-type
 * resolver of a slot map (Parser.cpp:585-655) are each given as a specification
 * function and as a method that runs the loops of the source; the method is
 * proved to compute the function.
 */
module Resolution {
  import opened QtString
  import opened Store

  // ---------------------------------------------------------------------------
  // Qualified names.
  // ---------------------------------------------------------------------------

  /** Namespace prefixes listed outermost first, concatenated. */
  function Join(ns: seq<string>): string
  {
    if ns == [] then "" else ns[0] + Join(ns[1..])
  }

  /** Namespace prefixes listed innermost first, concatenated outermost first. */
  function JoinRev(ns: seq<string>): string
  {
    if ns == [] then "" else ns[|ns| - 1] + JoinRev(ns[..|ns| - 1])
  }

  function Reverse<T>(s: seq<T>): (r: seq<T>)
    ensures |r| == |s|
    ensures forall k :: 0 <= k < |s| ==> r[k] == s[|s| - 1 - k]
  {
    if s == [] then [] else [s[|s| - 1]] + Reverse(s[..|s| - 1])
  }

  /** Growing an outermost-first list at its inner end extends the name at its end. */
  lemma {:induction false} JoinSnoc(ns: seq<string>, x: string)
    ensures Join(ns + [x]) == Join(ns) + x
  {
    if ns != [] {
      assert (ns + [x])[1..] == ns[1..] + [x];
      JoinSnoc(ns[1..], x);
    } else {
      assert Join([x]) == x + Join([]);
    }
  }

  /** Growing an innermost-first list at its outer end extends the name at its end. */
  lemma {:induction false} JoinRevCons(ns: seq<string>)
    requires ns != []
    ensures JoinRev(ns) == JoinRev(ns[1..]) + ns[0]
  {
    if |ns| == 1 {
      assert ns[..0] == [] && ns[1..] == [];
    } else {
      var init := ns[..|ns| - 1];
      JoinRevCons(init);
      assert init[1..] == ns[1..][..|ns[1..]| - 1];
      assert ns[1..][|ns[1..]| - 1] == ns[|ns| - 1];
    }
  }

  /**
   * A source file that meets its namespaces in the same order as a header lists
   * them innermost first, and both sides then build the same qualified name.
   */
  lemma {:induction false} JoinRevIsJoinOfReverse(ns: seq<string>)
    ensures JoinRev(ns) == Join(Reverse(ns))
  {
    if ns != [] {
      JoinRevIsJoinOfReverse(ns[..|ns| - 1]);
      assert Reverse(ns)[1..] == Reverse(ns[..|ns| - 1]);
    }
  }

  /** Prepends the namespaces of a header, innermost first (Parser.cpp:287-289, 381-383, 419-421). */
  method QualifyOutermostFirst(ns: seq<string>, name: string) returns (q: string)
    ensures q == Join(ns) + name
  {
    q := name;
    var j := |ns| - 1;
    while j >= 0
      invariant -1 <= j < |ns|
      invariant q == Join(ns[j + 1..]) + name
    {
      assert ns[j..][1..] == ns[j + 1..];
      q := ns[j] + q;
      j := j - 1;
    }
    assert ns[0..] == ns;
  }

  /** Prepends the namespaces of a source file in list order (Parser.cpp:487-490, 508-511, 638-640). */
  method QualifyInnermostFirst(ns: seq<string>, name: string) returns (q: string)
    ensures q == JoinRev(ns) + name
  {
    q := name;
    var x := 0;
    while x < |ns|
      invariant 0 <= x <= |ns|
      invariant q == JoinRev(ns[..x]) + name
    {
      assert ns[..x + 1][..x] == ns[..x];
      q := ns[x] + q;
      x := x + 1;
    }
    assert ns[..|ns|] == ns;
  }

  // ---------------------------------------------------------------------------
  // Base classes named in a header (Parser.cpp:317-398).
  // ---------------------------------------------------------------------------

  /** The outcome of a base-class lookup: an id or nothing, or the read of
      `namespaces[1]` on an empty list that Parser.cpp:338-339 performs. */
  datatype BaseLookup = Resolved(id: Option<int>) | OutOfRange

  /** The leading `X::` of a qualified name. */
  function LeadingSegment(d: string): (t: string)
    requires Contains(d, "::")
    ensures |t| >= 2 && OccursAt(d, t, 0)
  {
    var idx := IndexOf(d, "::");
    assert OccursAt(d, "::", idx);
    Left(d, idx + 2)
  }

  /** The lookup of `d` behind the first `p` namespaces of a header. */
  function OuterProbe(classes: seq<ClassRow>, ns: seq<string>, d: string, p: nat): Option<int>
    requires p <= |ns|
  {
    FindClassId(classes, Join(ns[..p]) + d)
  }

  /** The cumulative prefixes `ns[0]`, `ns[0] ns[1]`, ... of Parser.cpp:357-369,
      from the one made of the first `m` entries on: the first that names a row. */
  function OutermostPrefixSearch(classes: seq<ClassRow>, ns: seq<string>, d: string, m: nat): (r: Option<int>)
    requires 1 <= m
    ensures r.None? <==> forall p :: m <= p <= |ns| ==> OuterProbe(classes, ns, d, p).None?
    ensures r.Some? ==> exists p :: m <= p <= |ns| && OuterProbe(classes, ns, d, p) == r
    decreases |ns| + 1 - m
  {
    if m > |ns| then None
    else
      var hit := OuterProbe(classes, ns, d, m);
      if hit.Some? then hit else OutermostPrefixSearch(classes, ns, d, m + 1)
  }

  /** The search stops at the first prefix that names a row. */
  lemma {:induction false} OutermostPrefixFirstHit(classes: seq<ClassRow>, ns: seq<string>, d: string, m: nat, p: nat)
    requires 1 <= m <= p <= |ns|
    requires forall p' :: m <= p' < p ==> OuterProbe(classes, ns, d, p').None?
    requires OuterProbe(classes, ns, d, p).Some?
    ensures OutermostPrefixSearch(classes, ns, d, m) == OuterProbe(classes, ns, d, p)
    decreases p - m
  {
    if m < p {
      OutermostPrefixFirstHit(classes, ns, d, m + 1, p);
    }
  }

  /** Parser.cpp:325-372: a base written with `::`. */
  function QualifiedBaseLookup(classes: seq<ClassRow>, ns: seq<string>, d: string): BaseLookup
    requires Contains(d, "::")
  {
    var exact := FindClassId(classes, d);
    if exact.Some? then Resolved(exact)
    else
      var t := LeadingSegment(d);
      if |ns| == 0 then OutOfRange
      else if |ns| >= 2 && ns[1] == t then Resolved(FindClassId(classes, ReplaceAll(d, t, "")))
      else Resolved(OutermostPrefixSearch(classes, ns, d, 1))
  }

  /** Parser.cpp:317-398: the id recorded as the base class of a derived class. */
  function BaseLookupSpec(classes: seq<ClassRow>, ns: seq<string>, d: string): BaseLookup
  {
    if Contains(d, "::") then QualifiedBaseLookup(classes, ns, d)
    else Resolved(FindClassId(classes, Join(ns) + d))
  }

  /** Parser.cpp:317-398, with its loops. */
  method ResolveBaseClass(classes: seq<ClassRow>, ns: seq<string>, d: string) returns (r: BaseLookup)
    ensures r == BaseLookupSpec(classes, ns, d)
  {
    if !Contains(d, "::") {
      var dString := QualifyOutermostFirst(ns, d);
      return Resolved(FindClassId(classes, dString));
    }
    var q := FindClassId(classes, d);
    if q.Some? {
      return Resolved(q);
    }
    var idx := IndexOf(d, "::");
    var tString := Left(d, idx + 2);
    assert tString == LeadingSegment(d);
    var dString := d;
    var found := false;
    // `int j = namespaces.size() - 1 && !found` stores a truth value
    var j := if |ns| - 1 != 0 && !found then 1 else 0;
    while j > 0
      invariant 0 <= j <= 1
      invariant j == 0 ==> |ns| >= 1
      invariant j == 1 ==> |ns| != 1 && !found && q.None?
      invariant j == 0 ==> (found <==> |ns| >= 2 && ns[1] == tString)
      invariant j == 0 && found ==> q == FindClassId(classes, ReplaceAll(d, tString, ""))
      invariant !found ==> q.None? && dString == d
    {
      if j >= |ns| {
        return OutOfRange;
      }
      if ns[j] == tString {
        found := true;
        dString := ReplaceAll(dString, tString, "");
        q := FindClassId(classes, dString);
      }
      j := j - 1;
    }
    if !found {
      q := SearchOuterPrefixes(classes, ns, d);
    }
    return Resolved(q);
  }

  /** One more entry on the outermost-first prefix probes the next search step. */
  lemma {:induction false} OuterPrefixStep(classes: seq<ClassRow>, ns: seq<string>, d: string, m: nat, nString: string)
    requires m < |ns| && nString == Join(ns[..m])
    ensures nString + ns[m] == Join(ns[..m + 1])
    ensures FindClassId(classes, nString + ns[m] + d).Some? ==> OutermostPrefixSearch(classes, ns, d, m + 1) == FindClassId(classes, nString + ns[m] + d)
    ensures FindClassId(classes, nString + ns[m] + d).None? ==> OutermostPrefixSearch(classes, ns, d, m + 1) == OutermostPrefixSearch(classes, ns, d, m + 2)
  {
    JoinSnoc(ns[..m], ns[m]);
    assert ns[..m] + [ns[m]] == ns[..m + 1];
    assert FindClassId(classes, nString + ns[m] + d) == OuterProbe(classes, ns, d, m + 1);
  }

  /** Parser.cpp:357-369: the prefixes, outermost namespace first. */
  method SearchOuterPrefixes(classes: seq<ClassRow>, ns: seq<string>, d: string) returns (r: Option<int>)
    ensures r == OutermostPrefixSearch(classes, ns, d, 1)
  {
    r := None;
    var nString := "";
    var m := 0;
    while m < |ns| && r.None?
      invariant 0 <= m <= |ns|
      invariant nString == Join(ns[..m])
      invariant r.None? ==> OutermostPrefixSearch(classes, ns, d, m + 1) == OutermostPrefixSearch(classes, ns, d, 1)
      invariant r.Some? ==> r == OutermostPrefixSearch(classes, ns, d, 1)
    {
      OuterPrefixStep(classes, ns, d, m, nString);
      nString := nString + ns[m];
      r := FindClassId(classes, nString + d);
      assert r.None? ==> OutermostPrefixSearch(classes, ns, d, m + 2) == OutermostPrefixSearch(classes, ns, d, 1);
      m := m + 1;
    }
  }

  /** A resolved base class is the id of a stored row. */
  lemma BaseLookupFindsStoredRow(classes: seq<ClassRow>, ns: seq<string>, d: string)
    requires BaseLookupSpec(classes, ns, d).Resolved? && BaseLookupSpec(classes, ns, d).id.Some?
    ensures HasId(classes, BaseLookupSpec(classes, ns, d).id.value)
  {
    if Contains(d, "::") && FindClassId(classes, d).None? && |ns| > 0
       && !(|ns| >= 2 && ns[1] == LeadingSegment(d)) {
      var p :| 1 <= p <= |ns| && OuterProbe(classes, ns, d, p) == OutermostPrefixSearch(classes, ns, d, 1);
    }
  }

  /** The lookup only fails to run to completion when a qualified base is missing
      as written and the header has no namespace open. */
  lemma BaseLookupOutOfRange(classes: seq<ClassRow>, ns: seq<string>, d: string)
    ensures BaseLookupSpec(classes, ns, d).OutOfRange?
        <==> Contains(d, "::") && FindClassId(classes, d).None? && ns == []
  {
  }

  /**
   * The leading segment is compared with `namespaces[1]` alone: when it equals
   * that entry the segment is removed and a miss is final, even when a
   * namespace-prefixed name would have been found.
   */
  lemma SecondNamespaceMatchIsFinal(classes: seq<ClassRow>, ns: seq<string>, d: string)
    requires Contains(d, "::") && FindClassId(classes, d).None?
    requires |ns| >= 2 && ns[1] == LeadingSegment(d)
    ensures BaseLookupSpec(classes, ns, d) == Resolved(FindClassId(classes, ReplaceAll(d, LeadingSegment(d), "")))
  {
  }

  /** Any other namespace equal to the leading segment is ignored: the lookup goes
      on to the cumulative prefixes, outermost first. */
  lemma OtherNamespacesNotCompared(classes: seq<ClassRow>, ns: seq<string>, d: string)
    requires Contains(d, "::") && FindClassId(classes, d).None?
    requires |ns| >= 1 && (|ns| == 1 || ns[1] != LeadingSegment(d))
    ensures BaseLookupSpec(classes, ns, d) == Resolved(OutermostPrefixSearch(classes, ns, d, 1))
  {
  }

  /**
   * In `namespace A { namespace B { class C : public X::Y {` with no class named
   * `X::Y` but one named `A::X::Y`, the base is `A::X::Y`, found as the first
   * cumulative prefix.
   */
  lemma OuterNamespacePrefixFound(classes: seq<ClassRow>, a: string, b: string, d: string)
    requires Contains(d, "::") && FindClassId(classes, d).None?
    requires b != LeadingSegment(d)
    requires FindClassId(classes, a + d).Some?
    ensures BaseLookupSpec(classes, [a, b], d) == Resolved(FindClassId(classes, a + d))
  {
    assert [a, b][..1] == [a];
    assert Join([a]) == a + Join([]) == a;
    assert OuterProbe(classes, [a, b], d, 1) == FindClassId(classes, a + d);
  }

  // ---------------------------------------------------------------------------
  // Accepted types named in a slot map (Parser.cpp:585-655).
  // ---------------------------------------------------------------------------

  /** Some entry of `ns` other than the first (the innermost) equals `t`
      (Parser.cpp:605-609). */
  predicate MatchesOuterNamespace(ns: seq<string>, t: string)
  {
    exists j :: 1 <= j < |ns| && ns[j] == t
  }

  /** The lookup of `t` behind the namespaces `ns[p..]` of a source file. */
  function InnerProbe(classes: seq<ClassRow>, ns: seq<string>, t: string, p: nat): Option<int>
    requires p <= |ns|
  {
    FindClassId(classes, JoinRev(ns[p..]) + t)
  }

  /** The prefixes of Parser.cpp:614-625: the outermost entry, then the two
      outermost, and so on, never including entry 0; searched from `ns[j..]`
      downward, the first that names a row. */
  function InnerPrefixSearch(classes: seq<ClassRow>, ns: seq<string>, t: string, j: int): (r: Option<int>)
    requires j < |ns|
    ensures r.None? <==> forall p :: 1 <= p <= j ==> InnerProbe(classes, ns, t, p).None?
    ensures r.Some? ==> exists p :: 1 <= p <= j && InnerProbe(classes, ns, t, p) == r
    decreases j
  {
    if j <= 0 then None
    else
      var hit := InnerProbe(classes, ns, t, j);
      if hit.Some? then hit else InnerPrefixSearch(classes, ns, t, j - 1)
  }

  /** The search stops at the first prefix, from the outermost down, that names
      a row. */
  lemma {:induction false} InnerPrefixFirstHit(classes: seq<ClassRow>, ns: seq<string>, t: string, j: int, p: nat)
    requires 1 <= p <= j < |ns|
    requires forall p' :: p < p' <= j ==> InnerProbe(classes, ns, t, p').None?
    requires InnerProbe(classes, ns, t, p).Some?
    ensures InnerPrefixSearch(classes, ns, t, j) == InnerProbe(classes, ns, t, p)
    decreases j - p
  {
    if p < j {
      InnerPrefixFirstHit(classes, ns, t, j - 1, p);
    }
  }

  /** Parser.cpp:585-655: the class id a slot-map entry's type names, if any. */
  function SlotTypeLookup(classes: seq<ClassRow>, ns: seq<string>, t: string): Option<int>
  {
    if Contains(t, "::") then
      var exact := FindClassId(classes, t);
      if exact.Some? then exact
      else if MatchesOuterNamespace(ns, LeadingSegment(t)) then None
      else InnerPrefixSearch(classes, ns, t, |ns| - 1)
    else FindClassId(classes, JoinRev(ns) + t)
  }

  /** Parser.cpp:604-610: whether the leading segment is one of the outer namespaces. */
  method FindOuterNamespace(ns: seq<string>, tString: string) returns (found: bool)
    ensures found == MatchesOuterNamespace(ns, tString)
  {
    found := false;
    var j := |ns| - 1;
    while j > 0
      invariant j < |ns|
      invariant found <==> exists p :: j < p < |ns| && 1 <= p && ns[p] == tString
    {
      if ns[j] == tString {
        found := true;
      }
      j := j - 1;
    }
  }

  /** Parser.cpp:585-655, with its loops. */
  method ResolveSlotType(classes: seq<ClassRow>, ns: seq<string>, t: string) returns (r: Option<int>)
    ensures r == SlotTypeLookup(classes, ns, t)
  {
    if !Contains(t, "::") {
      var objTypeName := QualifyInnermostFirst(ns, t);
      return FindClassId(classes, objTypeName);
    }
    r := FindClassId(classes, t);
    if r.Some? {
      return;
    }
    var idx := IndexOf(t, "::");
    var tString := Left(t, idx + 2);
    assert tString == LeadingSegment(t);
    var found := FindOuterNamespace(ns, tString);
    if !found {
      r := SearchInnerPrefixes(classes, ns, t);
    }
  }

  /** One more entry on the innermost-last prefix probes the next search step. */
  lemma {:induction false} InnerPrefixStep(classes: seq<ClassRow>, ns: seq<string>, t: string, j: int, nString: string)
    requires 0 < j < |ns| && nString == JoinRev(ns[j + 1..])
    ensures nString + ns[j] == JoinRev(ns[j..])
    ensures FindClassId(classes, nString + ns[j] + t).Some? ==> InnerPrefixSearch(classes, ns, t, j) == FindClassId(classes, nString + ns[j] + t)
    ensures FindClassId(classes, nString + ns[j] + t).None? ==> InnerPrefixSearch(classes, ns, t, j) == InnerPrefixSearch(classes, ns, t, j - 1)
  {
    JoinRevCons(ns[j..]);
    assert ns[j..][1..] == ns[j + 1..];
    assert FindClassId(classes, nString + ns[j] + t) == InnerProbe(classes, ns, t, j);
  }

  /** Parser.cpp:612-626: the prefixes, outermost namespace first. */
  method SearchInnerPrefixes(classes: seq<ClassRow>, ns: seq<string>, t: string) returns (r: Option<int>)
    ensures r == InnerPrefixSearch(classes, ns, t, |ns| - 1)
  {
    r := None;
    var nString := "";
    var j := |ns| - 1;
    while j > 0 && r.None?
      invariant -1 <= j < |ns|
      invariant nString == JoinRev(ns[j + 1..])
      invariant r.None? ==> InnerPrefixSearch(classes, ns, t, j) == InnerPrefixSearch(classes, ns, t, |ns| - 1)
      invariant r.Some? ==> r == InnerPrefixSearch(classes, ns, t, |ns| - 1)
    {
      InnerPrefixStep(classes, ns, t, j, nString);
      nString := nString + ns[j];
      r := FindClassId(classes, nString + t);
      assert r.None? ==> InnerPrefixSearch(classes, ns, t, j - 1) == InnerPrefixSearch(classes, ns, t, |ns| - 1);
      j := j - 1;
    }
  }

  /** A resolved accepted type is the id of a stored row. */
  lemma SlotTypeFindsStoredRow(classes: seq<ClassRow>, ns: seq<string>, t: string)
    requires SlotTypeLookup(classes, ns, t).Some?
    ensures HasId(classes, SlotTypeLookup(classes, ns, t).value)
  {
    if Contains(t, "::") && FindClassId(classes, t).None? && !MatchesOuterNamespace(ns, LeadingSegment(t)) {
      var p :| 1 <= p <= |ns| - 1 && InnerProbe(classes, ns, t, p) == SlotTypeLookup(classes, ns, t);
    }
  }

  /** When the leading `X::` of a type that is missing as written equals an outer
      namespace of the file, the type is not resolved at all (Parser.cpp:605-628). */
  lemma LeadingMatchNeverResolves(classes: seq<ClassRow>, ns: seq<string>, t: string, j: nat)
    requires Contains(t, "::") && FindClassId(classes, t).None?
    requires 1 <= j < |ns| && ns[j] == LeadingSegment(t)
    ensures SlotTypeLookup(classes, ns, t).None?
  {
  }

  /**
   * The innermost namespace (entry 0) never takes part in a prefix: a qualified
   * type missing as written resolves only through a name made of entries
   * `ns[p..]` with `p >= 1`, and a file with a single namespace never resolves it.
   */
  lemma InnermostNeverPrefixed(classes: seq<ClassRow>, ns: seq<string>, t: string)
    requires Contains(t, "::") && FindClassId(classes, t).None?
    ensures SlotTypeLookup(classes, ns, t).Some? ==>
      exists p :: 1 <= p < |ns| && InnerProbe(classes, ns, t, p) == SlotTypeLookup(classes, ns, t)
    ensures |ns| <= 1 ==> SlotTypeLookup(classes, ns, t).None?
  {
  }
}
