/** Driver hints: the filters and the limit a caller attaches to a `list_*`
    call, the comparators the filters use, and the pipeline a backend runs
    over a candidate set: apply the filters it supports and remove them from
    the hints, then clip to the limit and record whether it truncated. */
module DriverHints {
  import opened IdentityTypes
  import opened Listing

  datatype Comparator = Equals | Contains | StartsWith | EndsWith

  /** `hints.add_filter(field, value, comparator)`. */
  datatype Filter = Filter(field: string, value: string, comparator: Comparator)

  /** `hints.limit`: `{'limit': limit, 'truncated': truncated}`. */
  datatype Limit = Limit(limit: nat, truncated: bool)

  function LowerChar(c: char): char
  {
    if 'A' <= c <= 'Z' then (c as int + 32) as char else c
  }

  /** ASCII lower case, as a case-insensitive LIKE compares. */
  function Lower(s: string): string
  {
    seq(|s|, i requires 0 <= i < |s| => LowerChar(s[i]))
  }

  predicate HasPrefix(s: string, p: string)
  {
    |p| <= |s| && s[..|p|] == p
  }

  predicate HasSuffix(s: string, p: string)
  {
    |p| <= |s| && s[|s| - |p|..] == p
  }

  predicate OccursAt(s: string, p: string, i: int)
  {
    0 <= i <= |s| - |p| && s[i..i + |p|] == p
  }

  predicate HasInfix(s: string, p: string)
  {
    exists i | 0 <= i <= |s| - |p| :: OccursAt(s, p, i)
  }

  /** Whether the attribute value `actual` passes the filter `f`: `equals`
      compares exactly, the three inexact comparators ignore case. */
  predicate Matches(actual: string, f: Filter)
  {
    match f.comparator
    case Equals => actual == f.value
    case Contains => HasInfix(Lower(actual), Lower(f.value))
    case StartsWith => HasPrefix(Lower(actual), Lower(f.value))
    case EndsWith => HasSuffix(Lower(actual), Lower(f.value))
  }

  /** Lower-casing a slice is slicing the lower-cased text. */
  lemma LowerSlice(s: string, i: nat, j: nat)
    requires i <= j <= |s|
    ensures Lower(s[i..j]) == Lower(s)[i..j]
  {
  }

  /** `equals` is exact equality of the attribute value and the filter value. */
  lemma EqualsMeaning(actual: string, field: string, v: string)
    ensures Matches(actual, Filter(field, v, Equals)) <==> actual == v
  {
  }

  /** `contains` asks for a piece of the value that equals the filter value
      once both are lower-cased. */
  lemma {:induction false} ContainsMeaning(actual: string, field: string, v: string)
    ensures Matches(actual, Filter(field, v, Contains)) <==>
              exists i, j :: 0 <= i <= j <= |actual| && Lower(actual[i..j]) == Lower(v)
  {
    var a, p := Lower(actual), Lower(v);
    if HasInfix(a, p) {
      var i :| 0 <= i <= |a| - |p| && OccursAt(a, p, i);
      LowerSlice(actual, i, i + |p|);
    }
    if exists i, j :: 0 <= i <= j <= |actual| && Lower(actual[i..j]) == p {
      var i, j :| 0 <= i <= j <= |actual| && Lower(actual[i..j]) == p;
      LowerSlice(actual, i, j);
      assert OccursAt(a, p, i);
    }
  }

  /** `startswith` asks for a head of the value that equals the filter value
      once both are lower-cased. */
  lemma {:induction false} StartsWithMeaning(actual: string, field: string, v: string)
    ensures Matches(actual, Filter(field, v, StartsWith)) <==>
              exists j :: 0 <= j <= |actual| && Lower(actual[..j]) == Lower(v)
  {
    var a, p := Lower(actual), Lower(v);
    if HasPrefix(a, p) {
      LowerSlice(actual, 0, |p|);
      assert actual[..|p|] == actual[0..|p|];
    }
    if exists j :: 0 <= j <= |actual| && Lower(actual[..j]) == p {
      var j :| 0 <= j <= |actual| && Lower(actual[..j]) == p;
      LowerSlice(actual, 0, j);
      assert actual[..j] == actual[0..j];
    }
  }

  /** `endswith` asks for a tail of the value that equals the filter value
      once both are lower-cased. */
  lemma {:induction false} EndsWithMeaning(actual: string, field: string, v: string)
    ensures Matches(actual, Filter(field, v, EndsWith)) <==>
              exists i :: 0 <= i <= |actual| && Lower(actual[i..]) == Lower(v)
  {
    var a, p := Lower(actual), Lower(v);
    if HasSuffix(a, p) {
      LowerSlice(actual, |a| - |p|, |a|);
      assert actual[|a| - |p|..] == actual[|a| - |p|..|actual|];
    }
    if exists i :: 0 <= i <= |actual| && Lower(actual[i..]) == p {
      var i :| 0 <= i <= |actual| && Lower(actual[i..]) == p;
      LowerSlice(actual, i, |actual|);
      assert actual[i..] == actual[i..|actual|];
    }
  }

  /** An inexact filter matches the same values whatever the case of its value. */
  lemma {:induction false} InexactIgnoresCase(actual: string, field: string, v: string, c: Comparator)
    requires !c.Equals?
    ensures Matches(actual, Filter(field, v, c)) <==> Matches(actual, Filter(field, Lower(v), c))
  {
    assert Lower(Lower(v)) == Lower(v);
  }

  /** A value that starts or ends with the filter value also contains it, and
      one equal to it passes all three inexact comparators. */
  lemma {:induction false} ComparatorsNest(actual: string, field: string, v: string)
    ensures Matches(actual, Filter(field, v, StartsWith)) ==> Matches(actual, Filter(field, v, Contains))
    ensures Matches(actual, Filter(field, v, EndsWith)) ==> Matches(actual, Filter(field, v, Contains))
    ensures Matches(actual, Filter(field, v, Equals)) ==>
              Matches(actual, Filter(field, v, StartsWith)) && Matches(actual, Filter(field, v, EndsWith))
  {
    var a, p := Lower(actual), Lower(v);
    if HasPrefix(a, p) {
      assert OccursAt(a, p, 0);
    }
    if HasSuffix(a, p) {
      assert OccursAt(a, p, |a| - |p|);
    }
    if actual == v {
      assert a == p;
      assert a[..|p|] == p && a[|a| - |p|..] == p;
    }
  }

  /** `contains 'ministry'` passes 'The Ministry': the inexact comparators
      ignore case, as the filtered user listing expects. */
  lemma ContainsExample()
    ensures Matches("The Ministry", Filter("name", "ministry", Contains))
  {
    var a := Lower("The Ministry");
    assert a[4] == 'm' && a[5] == 'i' && a[6] == 'n' && a[7] == 'i';
    assert a[8] == 's' && a[9] == 't' && a[10] == 'r' && a[11] == 'y';
    assert Lower("ministry") == "ministry";
    assert OccursAt(a, "ministry", 4);
  }

  /** `contains 'ministry'` does not pass 'The'. */
  lemma ContainsCounterExample()
    ensures !Matches("The", Filter("name", "ministry", Contains))
  {
  }

  /** `endswith 'of'` passes 'The ministry of silly walks OF'. */
  lemma EndsWithExample()
    ensures Matches("The ministry of silly walks OF", Filter("name", "of", EndsWith))
  {
    var a := Lower("The ministry of silly walks OF");
    assert a[28] == 'o' && a[29] == 'f';
    assert a[28..] == "of";
    assert Lower("of") == "of";
  }

  /** The filters a backend whose entities carry the attributes `fields` can apply. */
  function Supported(fs: seq<Filter>, fields: set<string>): (r: seq<Filter>)
    ensures forall f :: f in r <==> f in fs && f.field in fields
  {
    if fs == [] then []
    else if fs[0].field in fields then [fs[0]] + Supported(fs[1..], fields)
    else Supported(fs[1..], fields)
  }

  /** The filters it cannot apply, left in the hints in their original order. */
  function Unsupported(fs: seq<Filter>, fields: set<string>): (r: seq<Filter>)
    ensures forall f :: f in r <==> f in fs && f.field !in fields
    ensures |r| <= |fs|
  {
    if fs == [] then []
    else if fs[0].field !in fields then [fs[0]] + Unsupported(fs[1..], fields)
    else Unsupported(fs[1..], fields)
  }

  /** `hints.get_exact_filter_by_name(name)`: the first `equals` filter on `name`. */
  function ExactFilter(fs: seq<Filter>, name: string): (r: Option<Filter>)
    ensures r.Some? ==> r.value in fs && r.value.field == name && r.value.comparator.Equals?
    ensures r.None? <==> forall f :: f in fs ==> !(f.field == name && f.comparator.Equals?)
  {
    if fs == [] then None
    else if fs[0].field == name && fs[0].comparator.Equals? then Some(fs[0])
    else ExactFilter(fs[1..], name)
  }

  predicate MatchesAll<T>(x: T, fs: seq<Filter>, field: (T, string) -> string)
  {
    forall f :: f in fs ==> Matches(field(x, f.field), f)
  }

  /** The candidates whose entity passes every filter in `fs`. */
  function Selected<T>(entities: map<Id, T>, candidates: set<Id>, fs: seq<Filter>, field: (T, string) -> string): (s: set<Id>)
    ensures forall id :: id in s <==> id in candidates && id in entities && MatchesAll(entities[id], fs, field)
    ensures fs == [] ==> s == candidates * entities.Keys
  {
    set id | id in candidates && id in entities && MatchesAll(entities[id], fs, field)
  }

  /** `driver_hints.Hints`: filters consumed by the backend and a limit it fills in. */
  class Hints {
    var filters: seq<Filter>
    var limit: Option<Limit>

    constructor ()
      ensures filters == [] && limit.None?
    {
      filters := [];
      limit := None;
    }

    method AddFilter(field: string, value: string, comparator: Comparator)
      modifies this
      ensures filters == old(filters) + [Filter(field, value, comparator)]
      ensures limit == old(limit)
    {
      filters := filters + [Filter(field, value, comparator)];
    }

    /** `hints.set_limit(n)`: a fresh limit that has not truncated anything. */
    method SetLimit(n: nat)
      modifies this
      ensures limit == Some(Limit(n, false))
      ensures filters == old(filters)
    {
      limit := Some(Limit(n, false));
    }
  }

  /** How a list call ends up with respect to its limit. */
  function FinalLimit(prev: Option<Limit>, configured: Option<nat>, total: nat): (r: Option<Limit>)
    ensures r.Some? <==> prev.Some? || configured.Some?
    ensures configured.Some? ==> r == Some(Limit(configured.value, total > configured.value))
    ensures r.Some? && total > r.value.limit ==> r.value.truncated
  {
    if configured.Some? then Some(Limit(configured.value, total > configured.value))
    else if prev.Some? then Some(Limit(prev.value.limit, prev.value.truncated || total > prev.value.limit))
    else None
  }

  /** Runs a list call over `candidates`. Without hints every candidate is
      listed. With hints, the filters on attributes in `fields` are applied
      and removed from the hints, the configured `list_limit` (if any)
      replaces the hints' limit, and the result is clipped to the limit with
      `truncated` set when something was cut off. */
  method ApplyHints<T>(entities: map<Id, T>, candidates: set<Id>, field: (T, string) -> string,
                       fields: set<string>, hints: Hints?, configured: Option<nat>)
    returns (ids: seq<Id>)
    modifies hints
    ensures Distinct(ids)
    ensures forall id :: id in ids ==> id in candidates
    ensures hints == null ==> |ids| == |candidates| && forall id :: id in candidates ==> id in ids
    ensures hints != null ==>
              var sel := Selected(entities, candidates, Supported(old(hints.filters), fields), field);
              && hints.filters == Unsupported(old(hints.filters), fields)
              && (forall name :: name in fields ==> ExactFilter(hints.filters, name).None?)
              && hints.limit == FinalLimit(old(hints.limit), configured, |sel|)
              && (forall id :: id in ids ==> id in sel)
              && (hints.limit.None? || |sel| <= hints.limit.value.limit ==>
                    |ids| == |sel| && forall id :: id in sel ==> id in ids)
              && (hints.limit.Some? && |sel| > hints.limit.value.limit ==> |ids| == hints.limit.value.limit)
  {
    if hints == null {
      ids := SetToSeq(candidates);
      return;
    }
    var sel := Selected(entities, candidates, Supported(hints.filters, fields), field);
    ids := SetToSeq(sel);
    hints.filters := Unsupported(hints.filters, fields);
    if configured.Some? {
      hints.SetLimit(configured.value);
    }
    if hints.limit.Some? {
      var n := hints.limit.value.limit;
      if |ids| > n {
        PrefixDistinct(ids, n);
        ids := ids[..n];
        hints.limit := Some(Limit(n, true));
      }
    }
  }

  /** No two ids carry the same entity (every record stores its own id). */
  predicate Injective<T(==)>(entities: map<Id, T>)
  {
    forall i, j :: i in entities && j in entities && entities[i] == entities[j] ==> i == j
  }

  /** `r` is what a list call over `candidates` may return when `fs` are the
      filters applied and `lim` the limit it ended with: distinct entities,
      each a candidate passing every filter; all of them unless the limit cut
      the list, and exactly `limit` of them when it did. */
  ghost predicate Listed<T>(r: seq<T>, entities: map<Id, T>, candidates: set<Id>, fs: seq<Filter>,
                                field: (T, string) -> string, lim: Option<Limit>)
  {
    var sel := Selected(entities, candidates, fs, field);
    && Distinct(r)
    && (forall x :: x in r ==> exists id :: id in sel && id in entities && entities[id] == x)
    && (lim.None? || |sel| <= lim.value.limit ==> |r| == |sel| && forall id :: id in sel ==> entities[id] in r)
    && (lim.Some? && |sel| > lim.value.limit ==> |r| == lim.value.limit)
  }

  /** The list call of ApplyHints, returning the entities rather than their ids. */
  method ListEntities<T(==)>(entities: map<Id, T>, candidates: set<Id>, field: (T, string) -> string,
                             fields: set<string>, hints: Hints?, configured: Option<nat>)
    returns (r: seq<T>)
    requires candidates <= entities.Keys
    requires Injective(entities)
    modifies hints
    ensures hints == null ==> Listed(r, entities, candidates, [], field, None)
    ensures hints != null ==>
              && hints.filters == Unsupported(old(hints.filters), fields)
              && hints.limit == FinalLimit(old(hints.limit), configured,
                                           |Selected(entities, candidates, Supported(old(hints.filters), fields), field)|)
              && Listed(r, entities, candidates, Supported(old(hints.filters), fields), field, hints.limit)
  {
    ghost var fs := if hints == null then [] else Supported(hints.filters, fields);
    var ids := ApplyHints(entities, candidates, field, fields, hints, configured);
    r := seq(|ids|, i requires 0 <= i < |ids| => entities[ids[i]]);
    assert Distinct(r) by {
      forall i, j | 0 <= i < j < |r| ensures r[i] != r[j] {
        assert ids[i] != ids[j];
      }
    }
    ghost var sel := Selected(entities, candidates, fs, field);
    assert hints == null ==> sel == candidates;
    forall x | x in r ensures exists id :: id in sel && id in entities && entities[id] == x {
      var i :| 0 <= i < |r| && r[i] == x;
      assert ids[i] in sel;
    }
    forall id | id in ids ensures entities[id] in r {
      var i :| 0 <= i < |ids| && ids[i] == id;
      assert r[i] == entities[id];
    }
  }
}
