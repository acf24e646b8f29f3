/** SecurityConfig.extractAuthoritiesFromRolesClaims: the granted authorities of a bearer token,
    read from its "roles" claim or, failing that, its "role" claim. */
module Security {
  import opened Common
  import opened JavaText

  const RolePrefix := "ROLE_"

  /** The two claims the converter reads; either may be absent. */
  datatype Claims = Claims(roles: Option<seq<string>>, role: Option<string>)

  /** The role names before normalisation: a non-empty "roles" list as it is, otherwise the
      "role" claim alone when it is present and not blank, otherwise none. */
  function RawRoles(c: Claims): (rs: seq<string>)
    ensures c.roles.Some? && c.roles.value != [] ==> rs == c.roles.value
    ensures c.roles.None? || c.roles.value == [] ==>
      |rs| <= 1 && forall r | r in rs :: c.role == Some(r) && !IsBlank(r)
  {
    if c.roles.Some? && c.roles.value != [] then c.roles.value
    else if c.role.None? || IsBlank(c.role.value) then []
    else [c.role.value]
  }

  /** map(String::trim) then filter(r -> !r.isBlank()), in order. */
  function TrimmedNonBlank(rs: seq<string>): (ts: seq<string>)
    ensures |ts| <= |rs|
    ensures forall t | t in ts :: !IsBlank(t)
  {
    if rs == [] then [] else Kept(rs[0]) + TrimmedNonBlank(rs[1..])
  }

  /** What the trim-and-filter step makes of one entry: its trimmed form, or nothing when that
      is blank. */
  function Kept(r: string): (ts: seq<string>)
    ensures |ts| <= 1
    ensures forall t | t in ts :: t == Trim(r) && !IsBlank(t)
  {
    if IsBlank(Trim(r)) then [] else [Trim(r)]
  }

  /** The names kept are exactly the trimmed entries that are not blank. */
  lemma {:induction false} TrimmedNonBlankMembers(rs: seq<string>)
    ensures forall t :: t in TrimmedNonBlank(rs) <==>
      exists i :: 0 <= i < |rs| && Trim(rs[i]) == t && !IsBlank(t)
  {
    if rs != [] {
      var tail := rs[1..];
      TrimmedNonBlankMembers(tail);
      assert TrimmedNonBlank(rs) == Kept(rs[0]) + TrimmedNonBlank(tail);
      forall t | t in TrimmedNonBlank(rs)
        ensures exists i :: 0 <= i < |rs| && Trim(rs[i]) == t && !IsBlank(t)
      {
        if t in Kept(rs[0]) {
          assert Trim(rs[0]) == t && !IsBlank(t);
        } else {
          var j :| 0 <= j < |tail| && Trim(tail[j]) == t && !IsBlank(t);
          assert rs[j + 1] == tail[j];
        }
      }
      forall t | exists i :: 0 <= i < |rs| && Trim(rs[i]) == t && !IsBlank(t)
        ensures t in TrimmedNonBlank(rs)
      {
        var i :| 0 <= i < |rs| && Trim(rs[i]) == t && !IsBlank(t);
        if i == 0 {
          assert t in Kept(rs[0]);
        } else {
          assert tail[i - 1] == rs[i];
        }
      }
    }
  }

  /** map(r -> r.startsWith("ROLE_") ? r : "ROLE_" + r). */
  function Prefixed(r: string): (p: string)
    ensures StartsWith(p, RolePrefix)
    ensures StartsWith(r, RolePrefix) ==> p == r
    ensures !StartsWith(r, RolePrefix) ==> p == RolePrefix + r
  {
    if StartsWith(r, RolePrefix) then r else RolePrefix + r
  }

  /** Prefixed, element by element. */
  function PrefixedAll(ts: seq<string>): (ps: seq<string>)
    ensures |ps| == |ts|
    ensures forall i :: 0 <= i < |ts| ==> ps[i] == Prefixed(ts[i])
  {
    if ts == [] then []
    else
      var rest := PrefixedAll(ts[1..]);
      assert forall i :: 1 <= i < |ts| ==> ts[i] == ts[1..][i - 1];
      [Prefixed(ts[0])] + rest
  }

  /** The prefixed names are exactly the names, each prefixed. */
  lemma PrefixedAllMembers(ts: seq<string>)
    ensures forall a :: a in PrefixedAll(ts) <==> exists t :: t in ts && a == Prefixed(t)
  {
    var ps := PrefixedAll(ts);
    forall a ensures a in ps <==> exists t :: t in ts && a == Prefixed(t) {
      if a in ps {
        var i :| 0 <= i < |ps| && ps[i] == a;
        assert ts[i] in ts;
      }
      if exists t :: t in ts && a == Prefixed(t) {
        var t :| t in ts && a == Prefixed(t);
        var i :| 0 <= i < |ts| && ts[i] == t;
        assert ps[i] == a;
      }
    }
  }

  /** The position of the first occurrence of `x`. */
  function IndexOf(xs: seq<string>, x: string): (i: nat)
    requires x in xs
    ensures i < |xs| && xs[i] == x
    ensures forall j :: 0 <= j < i ==> xs[j] != x
  {
    if xs[0] == x then 0 else 1 + IndexOf(xs[1..], x)
  }

  /** Stream.distinct(): the first occurrence of each element, in encounter order. */
  function Distinct(xs: seq<string>): (ds: seq<string>)
    ensures |ds| <= |xs|
    ensures forall x :: x in ds <==> x in xs
    ensures forall i, j :: 0 <= i < j < |ds| ==> ds[i] != ds[j]
  {
    if xs == [] then []
    else
      var d := Distinct(xs[..|xs| - 1]);
      var last := xs[|xs| - 1];
      assert forall x :: x in xs <==> x in xs[..|xs| - 1] || x == last;
      if last in d then d else d + [last]
  }

  /** Appending an element does not move the first occurrence of one already present. */
  lemma {:induction false} IndexOfAppend(xs: seq<string>, y: string, x: string)
    requires x in xs
    ensures IndexOf(xs + [y], x) == IndexOf(xs, x)
  {
    if xs[0] != x {
      assert (xs + [y])[1..] == xs[1..] + [y];
      IndexOfAppend(xs[1..], y, x);
    }
  }

  /** distinct() keeps encounter order: the outputs appear in the order of their first
      occurrences in the input. */
  lemma {:induction false} DistinctKeepsFirstOccurrenceOrder(xs: seq<string>)
    ensures forall i, j :: 0 <= i < j < |Distinct(xs)| ==>
      IndexOf(xs, Distinct(xs)[i]) < IndexOf(xs, Distinct(xs)[j])
  {
    if xs != [] {
      var init := xs[..|xs| - 1];
      var last := xs[|xs| - 1];
      assert xs == init + [last];
      DistinctKeepsFirstOccurrenceOrder(init);
      var d := Distinct(init);
      var ds := Distinct(xs);
      assert ds == if last in d then d else d + [last];
      forall i, j | 0 <= i < j < |ds| ensures IndexOf(xs, ds[i]) < IndexOf(xs, ds[j]) {
        assert ds[i] == d[i] && ds[i] in init;
        IndexOfAppend(init, last, ds[i]);
        if j < |d| {
          assert ds[j] == d[j] && ds[j] in init;
          IndexOfAppend(init, last, ds[j]);
        } else {
          assert ds[j] == last && last !in init;
          assert IndexOf(xs, last) == |init|;
        }
      }
    }
  }

  /** extractAuthoritiesFromRolesClaims: trimmed, non-blank role names with the ROLE_ prefix,
      each once, in the order of their first appearance. */
  function ExtractAuthorities(c: Claims): (auths: seq<string>)
    ensures forall a | a in auths :: StartsWith(a, RolePrefix)
    ensures forall i, j :: 0 <= i < j < |auths| ==> auths[i] != auths[j]
    ensures |auths| <= |RawRoles(c)|
    ensures forall a :: a in auths <==>
      exists t :: t in TrimmedNonBlank(RawRoles(c)) && a == Prefixed(t)
  {
    var ts := TrimmedNonBlank(RawRoles(c));
    PrefixedAllMembers(ts);
    Distinct(PrefixedAll(ts))
  }

  /** Without a non-empty "roles" list, the "role" claim gives one authority when it is non-blank
      once trimmed, and none otherwise (absent, blank, or made only of characters up to U+0020). */
  lemma {:induction false} RoleFallback(c: Claims)
    requires c.roles.None? || c.roles.value == []
    ensures ExtractAuthorities(c) ==
      (if c.role.None? || IsBlank(Trim(c.role.value)) then [] else [Prefixed(Trim(c.role.value))])
  {
    if c.role.Some? && IsBlank(c.role.value) {
      TrimKeepsBlank(c.role.value);
    }
    var rs := RawRoles(c);
    if rs != [] {
      assert rs[1..] == [];
      var ts := TrimmedNonBlank(rs);
      assert PrefixedAll(ts) == if ts == [] then [] else [Prefixed(ts[0])];
    }
  }

  /** A "role" claim holding only a control character such as U+0000 is not blank, yet it trims
      to nothing and grants no authority. */
  lemma ControlCharacterRoleGrantsNothing()
    ensures !IsBlank("\U{0000}")
    ensures ExtractAuthorities(Claims(None, Some("\U{0000}"))) == []
  {
    RoleFallback(Claims(None, Some("\U{0000}")));
    assert IsBlank(Trim("\U{0000}"));
  }

  /** A non-empty "roles" list decides alone: the pipeline runs on that list and the "role"
      claim is ignored. */
  lemma ExtractFromRoles(roles: seq<string>, role: Option<string>)
    requires roles != []
    ensures ExtractAuthorities(Claims(Some(roles), role)) == Distinct(PrefixedAll(TrimmedNonBlank(roles)))
  {
  }

  /** Two names that trim to themselves and are not blank both pass the trim-and-filter step. */
  lemma KeptWhenTrimmed(a: string, b: string)
    requires Trim(a) == a && !IsBlank(a) && Trim(b) == b && !IsBlank(b)
    ensures TrimmedNonBlank([a, b]) == [a, b]
  {
    assert [a, b][1..] == [b];
    assert [b][1..] == [];
  }

  /** The prefixing step on two names. */
  lemma PrefixedAllOfPair(a: string, b: string)
    ensures PrefixedAll([a, b]) == [Prefixed(a), Prefixed(b)]
  {
    assert [a, b][1..] == [b];
    assert [b][1..] == [];
  }

  /** A repeated authority is kept once. */
  lemma DistinctOfPair(a: string)
    ensures Distinct([a, a]) == [a]
  {
    assert [a, a][..1] == [a];
    assert [a][..0] == [];
  }

  /** A trimmed, non-blank name with the prefix added is still trimmed, non-blank, and now
      starts with the prefix. */
  lemma PrefixedNameStaysTrimmed(name: string)
    requires Trim(name) == name && !IsBlank(name)
    ensures var full := RolePrefix + name;
      Trim(full) == full && !IsBlank(full) && StartsWith(full, RolePrefix)
  {
    var full := RolePrefix + name;
    assert name != [] && ' ' < name[|name| - 1];
    assert full[|full| - 1] == name[|name| - 1];
    TrimOfTrimmed(full);
    assert !IsWhitespace(full[0]);
    assert full[..|RolePrefix|] == RolePrefix;
  }

  /** De-duplication happens after prefixing, so a name and its prefixed form collapse into one
      authority. */
  lemma NameAndPrefixedNameCollapse(name: string)
    requires Trim(name) == name && !IsBlank(name) && !StartsWith(name, RolePrefix)
    ensures ExtractAuthorities(Claims(Some([name, RolePrefix + name]), None)) == [RolePrefix + name]
  {
    var full := RolePrefix + name;
    PrefixedNameStaysTrimmed(name);
    KeptWhenTrimmed(name, full);
    PrefixedAllOfPair(name, full);
    DistinctOfPair(full);
    ExtractFromRoles([name, full], None);
  }

  /** The trim-and-filter step on a list with one more name at the end. */
  lemma {:induction false} TrimmedNonBlankAppend(rs: seq<string>, r: string)
    ensures TrimmedNonBlank(rs + [r]) == TrimmedNonBlank(rs) + Kept(r)
  {
    if rs == [] {
      assert [r][1..] == [];
    } else {
      assert (rs + [r])[1..] == rs[1..] + [r];
      TrimmedNonBlankAppend(rs[1..], r);
      assert Kept(rs[0]) + (TrimmedNonBlank(rs[1..]) + Kept(r))
          == (Kept(rs[0]) + TrimmedNonBlank(rs[1..])) + Kept(r);
    }
  }

  /** An entry of the "roles" list that trims to blank adds no authority. */
  lemma BlankRoleEntryIgnored(roles: seq<string>, blank: string, role: Option<string>)
    requires roles != [] && IsBlank(Trim(blank))
    ensures ExtractAuthorities(Claims(Some(roles + [blank]), role)) == ExtractAuthorities(Claims(Some(roles), role))
  {
    TrimmedNonBlankAppend(roles, blank);
    var ts := TrimmedNonBlank(roles);
    assert TrimmedNonBlank(roles + [blank]) == ts + [];
    assert ts + [] == ts;
    ExtractFromRoles(roles + [blank], role);
    ExtractFromRoles(roles, role);
  }
}
