/**
 * The sync of the playlist with the user's top tracks (src/main.py:142-170).
 *
 * The top tracks and the playlist's tracks are read in full with `get_all`;
 * the top tracks not yet on the playlist are added in one call at position 0;
 * the playlist is then read again and the tracks to add are split into those
 * now present (`added`) and those still missing (`unadded`).
 *
 * The remote playlist is the only state that changes, so it is a class. The
 * service may silently drop some tracks from an add call (the `rejected`
 * ones), which covers the partial failure the re-read is there to detect.
 */
module Reconcile {
  import opened Wrappers
  import opened Pagination

  /** A track id; ids are compared by value (the `TrackID` wrapper of lines 38-40). */
  type TrackId = string

  /**
   * The page sizes the sync asks for at lines 145 and 150. They are also the
   * page sizes the client library's top-tracks and playlist-tracks calls use
   * by default, which is what makes `get_all` read these lists in full.
   */
  const TopTracksPageSize: nat := 20
  const PlaylistTracksPageSize: nat := 100

  /** The tracks of `xs`, as Python's `set(xs)`. */
  function SetOf(xs: seq<TrackId>): (r: set<TrackId>)
  {
    set x | x in xs
  }

  /** The tracks of a concatenation are those of its parts. */
  lemma SetOfConcat(a: seq<TrackId>, b: seq<TrackId>)
    ensures SetOf(a + b) == SetOf(a) + SetOf(b)
  {
    assert forall x :: x in a + b <==> x in a || x in b;
  }

  /** No track occurs twice in `xs`. */
  predicate Distinct(xs: seq<TrackId>)
  {
    forall i, j :: 0 <= i < j < |xs| ==> xs[i] != xs[j]
  }

  /** Line 155: the top tracks that are not on the playlist. */
  function TracksToAdd(top: seq<TrackId>, current: seq<TrackId>): (r: set<TrackId>)
    ensures forall t :: t in r <==> t in top && t !in current
  {
    SetOf(top) - SetOf(current)
  }

  /** The outcome of lines 169-170: the tracks now on the playlist and those still missing. */
  datatype Report = Report(added: set<TrackId>, unadded: set<TrackId>)

  /**
   * Lines 169-170: `unadded` are the tracks to add missing from the re-read
   * playlist, `added` the rest of the tracks to add.
   */
  function Verify(toAdd: seq<TrackId>, after: seq<TrackId>): (r: Report)
    ensures r.added !! r.unadded
    ensures r.added + r.unadded == SetOf(toAdd)
    ensures r.added == SetOf(toAdd) * SetOf(after)
    ensures r.added <= SetOf(after) && r.unadded !! SetOf(after)
  {
    var unadded := SetOf(toAdd) - SetOf(after);
    Report(SetOf(toAdd) - unadded, unadded)
  }

  /** The tracks of `ids` that the service keeps, in order. */
  function Kept(ids: seq<TrackId>, rejected: set<TrackId>): (r: seq<TrackId>)
    ensures |r| <= |ids|
    ensures forall t :: t in r ==> t in ids && t !in rejected
  {
    if ids == [] then []
    else (if ids[0] in rejected then [] else [ids[0]]) + Kept(ids[1..], rejected)
  }

  /** The service keeps exactly the tracks of `ids` it does not reject. */
  lemma {:induction false} KeptMembers(ids: seq<TrackId>, rejected: set<TrackId>)
    ensures SetOf(Kept(ids, rejected)) == SetOf(ids) - rejected
    decreases |ids|
  {
    if ids != [] {
      KeptMembers(ids[1..], rejected);
      assert ids == [ids[0]] + ids[1..];
      SetOfConcat((if ids[0] in rejected then [] else [ids[0]]), Kept(ids[1..], rejected));
      SetOfConcat([ids[0]], ids[1..]);
    }
  }

  /** One call of the service's add-items operation, as the sync issues it. */
  datatype AddCall = AddCall(tracks: seq<TrackId>, position: nat)

  /** The playlist on the remote service. */
  class RemotePlaylist {
    /** The playlist's tracks, in order. */
    var tracks: seq<TrackId>
    /** The tracks the service drops from an add call without reporting it. */
    const rejected: set<TrackId>
    /** The add calls the playlist has received. */
    ghost var addCalls: seq<AddCall>

    constructor (tracks: seq<TrackId>, rejected: set<TrackId>)
      ensures this.tracks == tracks && this.rejected == rejected && addCalls == []
    {
      this.tracks := tracks;
      this.rejected := rejected;
      addCalls := [];
    }

    /** The add-items call (lines 124 and 161): inserts at `position` the tracks of `ids` the service keeps. */
    method Add(ids: seq<TrackId>, position: nat)
      requires position <= |tracks|
      modifies this
      ensures tracks == old(tracks)[..position] + Kept(ids, rejected) + old(tracks)[position..]
      ensures addCalls == old(addCalls) + [AddCall(ids, position)]
    {
      tracks := tracks[..position] + Kept(ids, rejected) + tracks[position..];
      addCalls := addCalls + [AddCall(ids, position)];
    }
  }

  /** Line 156: `list(s)`, the tracks of a set in an order the set chooses. */
  method ListOf(s: set<TrackId>) returns (xs: seq<TrackId>)
    ensures SetOf(xs) == s && Distinct(xs) && |xs| == |s|
  {
    xs := [];
    var rest := s;
    while rest != {}
      invariant SetOf(xs) !! rest && SetOf(xs) + rest == s
      invariant Distinct(xs) && |xs| + |rest| == |s|
      decreases |rest|
    {
      var x :| x in rest;
      assert x !in SetOf(xs);
      assert |rest - {x}| == |rest| - 1;
      xs := xs + [x];
      rest := rest - {x};
    }
  }

  /** The playlist after lines 160-161: unchanged when there is nothing to add, else the kept tracks first. */
  function Applied(before: seq<TrackId>, toAdd: seq<TrackId>, rejected: set<TrackId>): (r: seq<TrackId>)
    ensures SetOf(r) == SetOf(before) + (SetOf(toAdd) - rejected)
  {
    KeptMembers(toAdd, rejected);
    SetOfConcat(Kept(toAdd, rejected), before);
    if toAdd == [] then before else Kept(toAdd, rejected) + before
  }

  /** Lines 160-161: the add call at position 0, issued only when there is something to add. */
  method AddIfAny(playlist: RemotePlaylist, toAdd: seq<TrackId>)
    modifies playlist
    ensures playlist.tracks == Applied(old(playlist.tracks), toAdd, playlist.rejected)
    ensures playlist.addCalls == old(playlist.addCalls) + if toAdd == [] then [] else [AddCall(toAdd, 0)]
  {
    if toAdd != [] {
      playlist.Add(toAdd, 0);
      assert old(playlist.tracks)[..0] == [] && old(playlist.tracks)[0..] == old(playlist.tracks);
    }
  }

  /**
   * A read of a whole remote list through `get_all` (lines 85, 108, 145, 150
   * and 166), asking for the page size the service serves by default and
   * starting at the beginning: it yields the list itself.
   */
  method ReadAll<T>(items: seq<T>, pageSize: nat, offsetArg: Option<nat>) returns (r: seq<T>)
    requires pageSize > 0 && offsetArg.GetOr(0) == 0
    ensures r == items
  {
    var pages;
    r, pages := GetAll(Source(items, pageSize), Some(pageSize), offsetArg);
    assert items[0..] == items;
  }

  /**
   * Lines 142-170. `ranking` is the user's medium-term top tracks as the
   * service ranks them; `toAdd` is the list handed to the add call and
   * `report` the split of lines 169-170.
   */
  method Sync(ranking: seq<TrackId>, playlist: RemotePlaylist) returns (toAdd: seq<TrackId>, report: Report)
    modifies playlist
    ensures SetOf(toAdd) == TracksToAdd(ranking, old(playlist.tracks)) && Distinct(toAdd)
    ensures playlist.tracks == Applied(old(playlist.tracks), toAdd, playlist.rejected)
    ensures playlist.addCalls == old(playlist.addCalls) + if toAdd == [] then [] else [AddCall(toAdd, 0)]
    ensures report == Verify(toAdd, playlist.tracks)
    ensures report.added == SetOf(toAdd) - playlist.rejected
    ensures report.unadded == SetOf(toAdd) * playlist.rejected
    ensures TracksToAdd(ranking, playlist.tracks) == report.unadded
  {
    var top := ReadAll(ranking, TopTracksPageSize, Some(0));
    var before := ReadAll(playlist.tracks, PlaylistTracksPageSize, None);
    toAdd := ListOf(SetOf(top) - SetOf(before));
    assert SetOf(toAdd) == TracksToAdd(ranking, before);
    AddIfAny(playlist, toAdd);
    var after := ReadAll(playlist.tracks, PlaylistTracksPageSize, None);
    report := Verify(toAdd, after);
    SyncOutcome(ranking, before, toAdd, playlist.rejected);
    assert report == Verify(toAdd, Applied(before, toAdd, playlist.rejected));
  }

  /**
   * Lines 160-170 against a service that drops the `rejected` tracks: a track
   * to add ends up in `added` when the service kept it and in `unadded` when it
   * dropped it.
   */
  lemma PartialAddReport(before: seq<TrackId>, toAdd: seq<TrackId>, rejected: set<TrackId>)
    requires SetOf(toAdd) !! SetOf(before)
    ensures Verify(toAdd, Applied(before, toAdd, rejected)).added == SetOf(toAdd) - rejected
    ensures Verify(toAdd, Applied(before, toAdd, rejected)).unadded == SetOf(toAdd) * rejected
  {
    KeptMembers(toAdd, rejected);
  }

  /** When the service keeps every track of the add call, nothing is reported as unadded. */
  lemma FullAddNothingUnadded(before: seq<TrackId>, toAdd: seq<TrackId>, rejected: set<TrackId>)
    requires SetOf(toAdd) !! SetOf(before) && SetOf(toAdd) !! rejected
    ensures Verify(toAdd, Applied(before, toAdd, rejected)) == Report(SetOf(toAdd), {})
  {
    PartialAddReport(before, toAdd, rejected);
  }

  /** The add call never removes a track: the old playlist follows the new tracks unchanged. */
  lemma AddKeepsExisting(before: seq<TrackId>, toAdd: seq<TrackId>, rejected: set<TrackId>)
    ensures var after := Applied(before, toAdd, rejected);
            |before| <= |after| && after[|after| - |before|..] == before
  {
  }

  /**
   * A second run against the playlist this run leaves behind, with the same
   * top tracks, tries to add exactly the tracks this run reported as unadded;
   * when every track was kept, the second run adds nothing.
   */
  lemma SecondRunRetriesUnadded(top: seq<TrackId>, before: seq<TrackId>, toAdd: seq<TrackId>, rejected: set<TrackId>)
    requires SetOf(toAdd) == TracksToAdd(top, before)
    ensures TracksToAdd(top, Applied(before, toAdd, rejected)) == Verify(toAdd, Applied(before, toAdd, rejected)).unadded
    ensures SetOf(toAdd) !! rejected ==> TracksToAdd(top, Applied(before, toAdd, rejected)) == {}
  {
    KeptMembers(toAdd, rejected);
    if toAdd != [] {
      SetOfConcat(Kept(toAdd, rejected), before);
    }
  }

  /** What `Sync` reports and leaves behind, for a playlist `before` and a service rejecting `rejected`. */
  lemma SyncOutcome(top: seq<TrackId>, before: seq<TrackId>, toAdd: seq<TrackId>, rejected: set<TrackId>)
    requires SetOf(toAdd) == TracksToAdd(top, before)
    ensures Verify(toAdd, Applied(before, toAdd, rejected)).added == SetOf(toAdd) - rejected
    ensures Verify(toAdd, Applied(before, toAdd, rejected)).unadded == SetOf(toAdd) * rejected
    ensures TracksToAdd(top, Applied(before, toAdd, rejected)) == Verify(toAdd, Applied(before, toAdd, rejected)).unadded
  {
    PartialAddReport(before, toAdd, rejected);
    SecondRunRetriesUnadded(top, before, toAdd, rejected);
  }
}
