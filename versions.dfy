/**
 The query extension of a subject's `versions` association: resolving an
 identifier of any supported kind to a version entry (`at`) or to an
 iteration number (`iteration_at`), and the range queries built on the
 latter (`between`, `before`, `after`). A history is passed as the sequence
 of the subject's entries in the association's default order.
 */
module Versions {
  import opened Wrappers
  import opened VersionStore

  /** The kinds of value `at` and `iteration_at` dispatch on. `Other` is any
      value none of the `when` branches accepts (nil, a boolean, ...). */
  datatype Identifier =
    | Time(time: int)          // a Date or Time, as a timestamp
    | Num(number: real)        // any Numeric
    | Str(tag: string)         // a String, read as a tag
    | Sym(query: string)       // a Symbol, naming a query of the association
    | Ver(version: Entry)      // a Version record
    | Other

  /** The association methods a Symbol may name; a name the association does
      not respond to maps to `None`. */
  type NamedQueries = string -> Option<Entry>

  /** `at(value)`: the entry an identifier designates, if any. */
  function At(h: seq<Entry>, named: NamedQueries, x: Identifier): (r: Option<Entry>)
    ensures x.Time? ==>
      && (r.Some? ==> r.value in h && r.value.createdAt <= x.time)
      && (r.None? <==> forall e :: e in h ==> e.createdAt > x.time)
      && (Ordered(h) && r.Some? ==>
            forall e :: e in h && e.createdAt <= x.time ==> e.iteration <= r.value.iteration)
    ensures x.Num? ==>
      && (r.Some? ==> r.value in h && r.value.iteration == x.number.Floor)
      && (r.None? <==> forall e :: e in h ==> e.iteration != x.number.Floor)
    ensures x.Str? ==>
      && (r.Some? ==> r.value in h && r.value.tag == Some(x.tag))
      && (r.None? <==> forall e :: e in h ==> e.tag != Some(x.tag))
    ensures x.Sym? ==> r == named(x.query)
    ensures x.Ver? ==> r == Some(x.version)
    ensures x.Other? ==> r == None
  {
    match x
    case Time(t) => LastCreatedAtOrBefore(h, t)
    case Num(n) => FindByIteration(h, n.Floor)
    case Str(s) => FindByTag(h, s)
    case Sym(q) => named(q)
    case Ver(v) => Some(v)
    case Other => None
  }

  /** `iteration_at(value)`: the iteration an identifier designates. A number
      gives its floor without a lookup; a time that matches nothing gives 1;
      an unmatched tag or query, and any other kind of value, give `None`. */
  function IterationAt(h: seq<Entry>, named: NamedQueries, x: Identifier): (r: Option<int>)
    ensures At(h, named, x).Some? ==> r == Some(At(h, named, x).value.iteration)
    ensures x.Num? ==> r == Some(x.number.Floor)
    ensures x.Time? && At(h, named, x).None? ==> r == Some(1)
    ensures r.None? <==> x.Other? || ((x.Str? || x.Sym?) && At(h, named, x).None?)
  {
    match x
    case Time(_) =>
      var v := At(h, named, x);
      if v.Some? then Some(v.value.iteration) else Some(1)
    case Num(n) => Some(n.Floor)
    case Str(_) =>
      var v := At(h, named, x);
      if v.Some? then Some(v.value.iteration) else None
    case Sym(_) =>
      var v := At(h, named, x);
      if v.Some? then Some(v.value.iteration) else None
    case Ver(v) => Some(v.iteration)
    case Other => None
  }

  /** `between(from, to)`: the entries whose iteration lies between the two
      resolved endpoints, inclusive, ordered in the direction from `from` to
      `to`; empty as soon as one endpoint does not resolve. */
  function Between(h: seq<Entry>, named: NamedQueries, from: Identifier, to: Identifier): (r: seq<Entry>)
    ensures IterationAt(h, named, from).None? || IterationAt(h, named, to).None? ==> r == []
    ensures IterationAt(h, named, from).Some? && IterationAt(h, named, to).Some? ==>
      var fi, ti := IterationAt(h, named, from).value, IterationAt(h, named, to).value;
      forall e :: e in r <==> e in h && (fi <= e.iteration <= ti || ti <= e.iteration <= fi)
    ensures Ordered(h) && IterationAt(h, named, from).Some? && IterationAt(h, named, to).Some? ==>
      var fi, ti := IterationAt(h, named, from).value, IterationAt(h, named, to).value;
      (fi <= ti ==> Ordered(r)) && (fi > ti ==> Descending(r))
  {
    var fromIteration, toIteration := IterationAt(h, named, from), IterationAt(h, named, to);
    if fromIteration.None? || toIteration.None? then []
    else
      var fi, ti := fromIteration.value, toIteration.value;
      var condition :=
        if fi == ti then Exactly(ti)
        else if fi < ti then Span(fi, ti)
        else Span(ti, fi);
      var rows := Where(h, condition);
      if fi > ti then
        ReversedOrderedIsDescending(rows);
        Reverse(rows)
      else rows
  }

  /** `before(value)`: the entries with a smaller iteration than the resolved
      one, in the default order; empty when `value` does not resolve. */
  function Before(h: seq<Entry>, named: NamedQueries, x: Identifier): (r: seq<Entry>)
    ensures IterationAt(h, named, x).None? ==> r == []
    ensures IterationAt(h, named, x).Some? ==>
      forall e :: e in r <==> e in h && e.iteration < IterationAt(h, named, x).value
    ensures Ordered(h) ==> Ordered(r)
  {
    var iteration := IterationAt(h, named, x);
    if iteration.None? then [] else Where(h, Below(iteration.value))
  }

  /** `after(value)`: the entries with a greater iteration than the resolved
      one, in the default order; empty when `value` does not resolve. */
  function After(h: seq<Entry>, named: NamedQueries, x: Identifier): (r: seq<Entry>)
    ensures IterationAt(h, named, x).None? ==> r == []
    ensures IterationAt(h, named, x).Some? ==>
      forall e :: e in r <==> e in h && e.iteration > IterationAt(h, named, x).value
    ensures Ordered(h) ==> Ordered(r)
  {
    var iteration := IterationAt(h, named, x);
    if iteration.None? then [] else Where(h, Above(iteration.value))
  }

  // ---------------------------------------------------------------------
  // Reversal

  lemma ReversedOrderedIsDescending(s: seq<Entry>)
    ensures Ordered(s) ==> Descending(Reverse(s))
  {
    if Ordered(s) {
      var r := Reverse(s);
      forall i, j | 0 <= i < j < |r| ensures r[i].iteration > r[j].iteration {
        assert r[i] == s[|s| - 1 - i] && r[j] == s[|s| - 1 - j];
      }
    }
  }

  lemma ReverseReverse(s: seq<Entry>)
    ensures Reverse(Reverse(s)) == s
  {
    var r := Reverse(s);
    assert forall i :: 0 <= i < |s| ==> Reverse(r)[i] == r[|s| - 1 - i] == s[i];
  }

  // ---------------------------------------------------------------------
  // Identifier resolution on a well-formed history

  /** A number designates the stored entry at its floor, whichever it is. */
  lemma AtNumberFindsEntry(h: seq<Entry>, named: NamedQueries, n: real, e: Entry)
    requires Ordered(h) && e in h && e.iteration == n.Floor
    ensures At(h, named, Num(n)) == Some(e)
    ensures IterationAt(h, named, Num(n)) == Some(e.iteration)
  {
    FindByIterationFinds(h, e);
  }

  /** A time designates the qualifying entry of highest iteration; its
      iteration is what `iteration_at` gives. */
  lemma AtTimeFindsLatest(h: seq<Entry>, named: NamedQueries, t: int, e: Entry)
    requires Ordered(h) && e in h && e.createdAt <= t
    requires forall d :: d in h && d.createdAt <= t ==> d.iteration <= e.iteration
    ensures At(h, named, Time(t)) == Some(e)
    ensures IterationAt(h, named, Time(t)) == Some(e.iteration)
  {
    LastCreatedAtOrBeforeIsLatest(h, t, e);
  }

  /** A time before every entry designates no entry, yet iteration 1. */
  lemma TimeBeforeHistory(h: seq<Entry>, named: NamedQueries, t: int)
    requires forall e :: e in h ==> e.createdAt > t
    ensures At(h, named, Time(t)) == None
    ensures IterationAt(h, named, Time(t)) == Some(1)
  {
  }

  /** A tag designates the one entry carrying it. */
  lemma AtTagFindsEntry(h: seq<Entry>, named: NamedQueries, e: Entry)
    requires UniqueTags(h) && e in h && e.tag.Some?
    ensures At(h, named, Str(e.tag.value)) == Some(e)
    ensures IterationAt(h, named, Str(e.tag.value)) == Some(e.iteration)
  {
    FindByTagFinds(h, e);
  }

  /** Resolving the iteration of an entry found by `at` and looking it up
      again by number gives the same entry back, for every kind of
      identifier that designates a stored entry. */
  lemma AtIterationRoundTrip(h: seq<Entry>, named: NamedQueries, x: Identifier)
    requires Ordered(h) && At(h, named, x).Some? && At(h, named, x).value in h
    ensures IterationAt(h, named, x).Some?
    ensures At(h, named, Num(IterationAt(h, named, x).value as real)) == At(h, named, x)
  {
    var e := At(h, named, x).value;
    AtNumberFindsEntry(h, named, e.iteration as real, e);
  }

  // ---------------------------------------------------------------------
  // Range queries on a well-formed history

  /** With equal endpoints `between` gives just the entry stored at that
      iteration, or nothing. */
  lemma BetweenSameIteration(h: seq<Entry>, named: NamedQueries, from: Identifier, to: Identifier)
    requires Ordered(h)
    requires IterationAt(h, named, from).Some? && IterationAt(h, named, from) == IterationAt(h, named, to)
    ensures var i := IterationAt(h, named, to).value;
      Between(h, named, from, to) ==
        match FindByIteration(h, i)
        case Some(e) => [e]
        case None => []
  {
    var i := IterationAt(h, named, to).value;
    var r := Between(h, named, from, to);
    var expected := match FindByIteration(h, i) case Some(e) => [e] case None => [];
    forall e ensures e in r <==> e in expected {
      if e in r {
        FindByIterationFinds(h, e);
      }
    }
    OrderedByContents(r, expected);
  }

  /** Swapping the arguments of `between` reverses its result. */
  lemma BetweenSwapReverses(h: seq<Entry>, named: NamedQueries, from: Identifier, to: Identifier)
    requires Ordered(h)
    ensures Between(h, named, to, from) == Reverse(Between(h, named, from, to))
  {
    var fromIteration, toIteration := IterationAt(h, named, from), IterationAt(h, named, to);
    if fromIteration.Some? && toIteration.Some? {
      var fi, ti := fromIteration.value, toIteration.value;
      if fi == ti {
        BetweenSameIteration(h, named, from, to);
        BetweenSameIteration(h, named, to, from);
      } else if fi > ti {
        ReverseReverse(Where(h, Span(ti, fi)));
      }
    }
  }

  /** For an identifier whose iteration is stored, `before`, the entry at
      that iteration and `after` are disjoint and together make up the whole
      history in its default order. */
  lemma BeforeAtAfterPartition(h: seq<Entry>, named: NamedQueries, x: Identifier)
    requires Ordered(h)
    requires IterationAt(h, named, x).Some?
    requires At(h, named, Num(IterationAt(h, named, x).value as real)).Some?
    ensures var e := At(h, named, Num(IterationAt(h, named, x).value as real)).value;
      && Before(h, named, x) + [e] + After(h, named, x) == h
      && e !in Before(h, named, x) && e !in After(h, named, x)
      && forall d :: d in Before(h, named, x) ==> d !in After(h, named, x)
  {
    var i := IterationAt(h, named, x).value;
    var e := At(h, named, Num(i as real)).value;
    var before, after := Before(h, named, x), After(h, named, x);
    var whole := before + [e] + after;
    assert Ordered(whole) by {
      forall p, q | 0 <= p < q < |whole| ensures whole[p].iteration < whole[q].iteration {
        if q < |before| {
        } else if p < |before| {
          assert whole[p] in before;
          if q > |before| { assert whole[q] in after; }
        } else if p == |before| {
          assert whole[q] in after;
        } else {
        }
      }
    }
    forall d ensures d in whole <==> d in h {
      if d in h && d.iteration == i {
        OrderedIterationUnique(h, d, e);
      }
    }
    OrderedByContents(whole, h);
  }

  // ---------------------------------------------------------------------
  // A worked history

  /** Three entries of one subject, iterations 1 to 3, the second tagged "v2". */
  function ThreeEntries(): seq<Entry> {
    [Entry(7, 1, 10, None), Entry(7, 2, 20, Some("v2")), Entry(7, 3, 30, None)]
  }

  /** Ranges by tag and by number, in both directions. */
  lemma ThreeEntriesBetween(named: NamedQueries)
    ensures
      var h := ThreeEntries();
      && Between(h, named, Str("v2"), Num(3.0)) == [h[1], h[2]]
      && Between(h, named, Num(3.0), Str("v2")) == [h[2], h[1]]
  {
    var h := ThreeEntries();
    assert h[1..] == [h[1], h[2]] && h[1..][1..] == [h[2]];
    assert FindByTag(h, "v2") == Some(h[1]);
    assert IterationAt(h, named, Str("v2")) == Some(2);
    assert (3.0).Floor == 3;
    assert Where(h, Span(2, 3)) == [h[1], h[2]];
  }

  /** `before` and `after` a numbered entry. */
  lemma ThreeEntriesBeforeAfter(named: NamedQueries)
    ensures
      var h := ThreeEntries();
      && Before(h, named, Num(3.0)) == [h[0], h[1]]
      && After(h, named, Num(1.0)) == [h[1], h[2]]
  {
    var h := ThreeEntries();
    assert h[1..] == [h[1], h[2]] && h[1..][1..] == [h[2]];
    assert (3.0).Floor == 3 && (1.0).Floor == 1;
  }

  /** The floor of a fractional number, an unknown tag, and times before and
      inside the history. */
  lemma ThreeEntriesResolution(named: NamedQueries)
    ensures
      var h := ThreeEntries();
      && IterationAt(h, named, Num(2.9)) == Some(2)
      && At(h, named, Str("v9")) == None && IterationAt(h, named, Str("v9")) == None
      && At(h, named, Time(5)) == None && IterationAt(h, named, Time(5)) == Some(1)
      && At(h, named, Time(25)) == Some(h[1])
  {
    var h := ThreeEntries();
    assert h[..2] == [h[0], h[1]];
    assert "v2" != "v9";
  }
}
