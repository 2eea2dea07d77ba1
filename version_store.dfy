/**
 The `versions` association of one subject, as the query layer sees it: an
 in-memory history in the association's default order (`iteration ASC`), and
 the finders and conditional `all` queries the layer issues against it.
 */
module VersionStore {
  import opened Wrappers

  /** One stored version record. `subject` identifies the owning record, so
      entries of two subjects with the same iteration are distinct values. */
  datatype Entry = Entry(subject: int, iteration: int, createdAt: int, tag: Option<string>)

  /** The default order of the association: iterations strictly ascending
      (and therefore unique within the subject). */
  predicate Ordered(h: seq<Entry>) {
    forall i, j :: 0 <= i < j < |h| ==> h[i].iteration < h[j].iteration
  }

  /** The order `ORDER BY iteration DESC` produces. */
  predicate Descending(h: seq<Entry>) {
    forall i, j :: 0 <= i < j < |h| ==> h[i].iteration > h[j].iteration
  }

  /** No tag is carried by two entries of the same subject. */
  predicate UniqueTags(h: seq<Entry>) {
    forall i, j :: 0 <= i < j < |h| && h[i].tag.Some? ==> h[i].tag != h[j].tag
  }

  /** The conditions on `iteration` that the range queries pass to `all`. */
  datatype Condition =
    | Exactly(n: int)           // `:iteration => n`
    | Span(lo: int, hi: int)    // `:iteration => lo..hi`
    | Below(n: int)             // `iteration < n`
    | Above(n: int)             // `iteration > n`

  predicate Satisfies(e: Entry, c: Condition) {
    match c
    case Exactly(n) => e.iteration == n
    case Span(lo, hi) => lo <= e.iteration <= hi
    case Below(n) => e.iteration < n
    case Above(n) => e.iteration > n
  }

  /** `all(:conditions => c)` in the default order: the entries meeting `c`,
      in the order they are stored. */
  function Where(h: seq<Entry>, c: Condition): (r: seq<Entry>)
    ensures |r| <= |h|
    ensures forall e :: e in r <==> e in h && Satisfies(e, c)
    ensures Ordered(h) ==> Ordered(r)
  {
    if h == [] then []
    else
      var rest := Where(h[1..], c);
      if Satisfies(h[0], c) then
        assert Ordered(h) ==> forall e :: e in rest ==> h[0].iteration < e.iteration by {
          if Ordered(h) {
            forall e | e in rest ensures h[0].iteration < e.iteration {
              var k :| 1 <= k < |h| && h[k] == e;
            }
          }
        }
        [h[0]] + rest
      else rest
  }

  /** The same entries in the opposite order. */
  function Reverse(s: seq<Entry>): (r: seq<Entry>)
    ensures |r| == |s|
    ensures forall i :: 0 <= i < |s| ==> r[i] == s[|s| - 1 - i]
    ensures forall e :: e in r <==> e in s
  {
    if s == [] then [] else Reverse(s[1..]) + [s[0]]
  }

  /** `find_by_iteration(n)`. */
  function FindByIteration(h: seq<Entry>, n: int): (r: Option<Entry>)
    ensures r.Some? ==> r.value in h && r.value.iteration == n
    ensures r.None? <==> forall e :: e in h ==> e.iteration != n
  {
    if h == [] then None
    else if h[0].iteration == n then Some(h[0])
    else FindByIteration(h[1..], n)
  }

  /** `find_by_tag(s)`: exact match, no normalisation. */
  function FindByTag(h: seq<Entry>, s: string): (r: Option<Entry>)
    ensures r.Some? ==> r.value in h && r.value.tag == Some(s)
    ensures r.None? <==> forall e :: e in h ==> e.tag != Some(s)
  {
    if h == [] then None
    else if h[0].tag == Some(s) then Some(h[0])
    else FindByTag(h[1..], s)
  }

  /** `last(:conditions => ["created_at <= ?", t])`: the last entry, in the
      default order, created at or before `t`; on an ordered history that is
      the qualifying entry with the highest iteration. */
  function LastCreatedAtOrBefore(h: seq<Entry>, t: int): (r: Option<Entry>)
    ensures r.Some? ==> r.value in h && r.value.createdAt <= t
    ensures r.None? <==> forall e :: e in h ==> e.createdAt > t
    ensures Ordered(h) && r.Some? ==>
      forall e :: e in h && e.createdAt <= t ==> e.iteration <= r.value.iteration
  {
    if h == [] then None
    else if h[|h| - 1].createdAt <= t then Some(h[|h| - 1])
    else LastCreatedAtOrBefore(h[..|h| - 1], t)
  }

  /** In an ordered history an iteration identifies at most one entry. */
  lemma OrderedIterationUnique(h: seq<Entry>, a: Entry, b: Entry)
    requires Ordered(h)
    requires a in h && b in h && a.iteration == b.iteration
    ensures a == b
  {
    var i :| 0 <= i < |h| && h[i] == a;
    var j :| 0 <= j < |h| && h[j] == b;
  }

  /** A non-empty history holds its first entry. Called where the other
      history is empty, it supplies the index term without an assertion in
      a branch that cannot happen. */
  lemma HeadIsMember(s: seq<Entry>)
    ensures s != [] ==> s[0] in s
  {
  }

  /** Two ordered histories holding the same entries are the same sequence:
      an ordered result is determined by its contents alone. */
  lemma {:induction false} OrderedByContents(a: seq<Entry>, b: seq<Entry>)
    requires Ordered(a) && Ordered(b)
    requires forall e :: e in a <==> e in b
    ensures a == b
  {
    if a == [] {
      HeadIsMember(b);
    } else {
      assert a[0] in b;
      assert b != [];
      assert b[0] in a;
      var i :| 0 <= i < |a| && a[i] == b[0];
      var j :| 0 <= j < |b| && b[j] == a[0];
      assert forall k :: 0 <= k < |a| ==> a[0].iteration <= a[k].iteration;
      assert forall k :: 0 <= k < |b| ==> b[0].iteration <= b[k].iteration;
      OrderedIterationUnique(a, a[0], b[0]);
      forall e
        ensures e in a[1..] <==> e in b[1..]
      {
        if e in a[1..] {
          var k :| 1 <= k < |a| && a[k] == e;
          assert e.iteration > a[0].iteration;
          assert e in b;
        }
        if e in b[1..] {
          var k :| 1 <= k < |b| && b[k] == e;
          assert e.iteration > b[0].iteration;
          assert e in a;
        }
      }
      OrderedByContents(a[1..], b[1..]);
      assert a == [a[0]] + a[1..];
      assert b == [b[0]] + b[1..];
    }
  }

  /** In an ordered history `find_by_iteration` finds the one entry with that
      iteration whenever one is stored. */
  lemma FindByIterationFinds(h: seq<Entry>, e: Entry)
    requires Ordered(h) && e in h
    ensures FindByIteration(h, e.iteration) == Some(e)
  {
    var r := FindByIteration(h, e.iteration);
    OrderedIterationUnique(h, r.value, e);
  }

  /** With unique tags `find_by_tag` finds the one entry carrying the tag. */
  lemma FindByTagFinds(h: seq<Entry>, e: Entry)
    requires UniqueTags(h) && e in h && e.tag.Some?
    ensures FindByTag(h, e.tag.value) == Some(e)
  {
    var r := FindByTag(h, e.tag.value);
    var i :| 0 <= i < |h| && h[i] == r.value;
    var j :| 0 <= j < |h| && h[j] == e;
  }

  /** The time lookup is pinned down completely on an ordered history: the
      entry it finds is the unique qualifying entry of highest iteration. */
  lemma LastCreatedAtOrBeforeIsLatest(h: seq<Entry>, t: int, e: Entry)
    requires Ordered(h) && e in h && e.createdAt <= t
    requires forall d :: d in h && d.createdAt <= t ==> d.iteration <= e.iteration
    ensures LastCreatedAtOrBefore(h, t) == Some(e)
  {
    var r := LastCreatedAtOrBefore(h, t);
    assert r.Some?;
    assert r.value.iteration == e.iteration;
    OrderedIterationUnique(h, r.value, e);
  }
}
