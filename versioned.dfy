/**
 The `versioned?` class flag and the navigation predicates a versioned
 record answers about its own position (`version`) in its history.
 */
module Versioned {
  import opened VersionStore

  /** A model class as far as `versioned?` is concerned: the flag is false
      until the class calls `versioned`, and true from then on. */
  class ModelClass {
    var versionedFlag: bool

    /** A class that has not called `versioned`. */
    constructor ()
      ensures !IsVersioned()
    {
      versionedFlag := false;
    }

    /** `versioned?`: false by default, true once the class has called
        `versioned`. */
    function IsVersioned(): (r: bool)
      reads this
      ensures r <==> versionedFlag
    {
      versionedFlag
    }

    /** `versioned(*args)`: the rest of the declaration is not part of this
        model; afterwards `versioned?` answers true, however often it is called. */
    method Versioned()
      modifies this
      ensures IsVersioned()
    {
      versionedFlag := true;
    }
  }

  /** `versions.minimum(:iteration)` over a non-empty history. */
  function MinIteration(h: seq<Entry>): (m: int)
    requires h != []
    ensures exists e :: e in h && e.iteration == m
    ensures forall e :: e in h ==> m <= e.iteration
  {
    if |h| == 1 then h[0].iteration
    else
      var rest := MinIteration(h[1..]);
      if h[0].iteration <= rest then h[0].iteration else rest
  }

  /** `versions.maximum(:iteration)` over a non-empty history. */
  function MaxIteration(h: seq<Entry>): (m: int)
    requires h != []
    ensures exists e :: e in h && e.iteration == m
    ensures forall e :: e in h ==> e.iteration <= m
  {
    if |h| == 1 then h[0].iteration
    else
      var rest := MaxIteration(h[1..]);
      if h[0].iteration >= rest then h[0].iteration else rest
  }

  /** `has_previous_version?`, written `version > minimum - 1`: some stored
      iteration is at or before the current version (the current one
      included). */
  function HasPreviousVersion(version: int, h: seq<Entry>): (r: bool)
    requires h != []
    ensures r <==> exists e :: e in h && e.iteration <= version
  {
    version > MinIteration(h) - 1
  }

  /** `has_next_version?`: some stored iteration lies after the current version. */
  function HasNextVersion(version: int, h: seq<Entry>): (r: bool)
    requires h != []
    ensures r <==> exists e :: e in h && e.iteration > version
  {
    version < MaxIteration(h)
  }

  /** `lastest_version?`: no stored iteration lies after the current version. */
  function LatestVersion(version: int, h: seq<Entry>): (r: bool)
    requires h != []
    ensures r <==> forall e :: e in h ==> e.iteration <= version
  {
    !HasNextVersion(version, h)
  }

  /** On an ordered history, `has_previous_version?` holds exactly from the
      first stored iteration on, so it holds at the first entry itself. */
  lemma PreviousFromFirstEntry(version: int, h: seq<Entry>)
    requires Ordered(h) && h != []
    ensures HasPreviousVersion(version, h) <==> version >= h[0].iteration
    ensures HasPreviousVersion(h[0].iteration, h)
  {
    if HasPreviousVersion(version, h) {
      var e :| e in h && e.iteration <= version;
      var i :| 0 <= i < |h| && h[i] == e;
      assert i == 0 || h[0].iteration < h[i].iteration;
    }
  }

  /** On an ordered history, `has_next_version?` holds exactly before the
      last stored iteration, and `lastest_version?` from it on; a record whose
      version is its highest stored iteration is at its latest version. */
  lemma NextUntilLastEntry(version: int, h: seq<Entry>)
    requires Ordered(h) && h != []
    ensures HasNextVersion(version, h) <==> version < h[|h| - 1].iteration
    ensures LatestVersion(version, h) <==> version >= h[|h| - 1].iteration
    ensures LatestVersion(MaxIteration(h), h) && !HasNextVersion(MaxIteration(h), h)
  {
    var last := h[|h| - 1];
    forall e | e in h ensures e.iteration <= last.iteration {
      var i :| 0 <= i < |h| && h[i] == e;
      assert i == |h| - 1 || h[i].iteration < last.iteration;
    }
  }

  /** With a single stored entry and the record at that entry, there is no
      next version but, as written, there is a previous one. */
  lemma SingleEntryNavigation(e: Entry)
    ensures HasPreviousVersion(e.iteration, [e])
    ensures !HasNextVersion(e.iteration, [e])
    ensures LatestVersion(e.iteration, [e])
  {
  }
}
