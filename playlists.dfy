/**
 * Finding the target playlist by name (src/main.py:84-92, 110, 140).
 *
 * The listing of the user's playlists (read with `get_all` at lines 85 and
 * 108) is a parameter here, taken to be complete. The playlist is created
 * only when no entry has the target name, and its id is then taken with the
 * one-element unpacking `playlist_id, = [...]`, which raises unless exactly
 * one entry has that name.
 */
module Playlists {
  import opened Wrappers

  /** One entry of the user's playlist listing; only its id and name are used. */
  datatype PlaylistInfo = PlaylistInfo(id: string, name: string)

  /** The `ValueError` the unpacking `playlist_id, = ids` raises. */
  datatype LookupError =
    | NotEnoughValues  // no entry has the name
    | TooManyValues    // two or more entries have the name

  /** Line 86: the names of the listing, in order. */
  function Names(listing: seq<PlaylistInfo>): (r: seq<string>)
    ensures |r| == |listing| && forall i :: 0 <= i < |r| ==> r[i] == listing[i].name
  {
    seq(|listing|, i requires 0 <= i < |listing| => listing[i].name)
  }

  /** Line 92: the playlist is created when its name is not among the listing's names. */
  predicate NeedsCreation(listing: seq<PlaylistInfo>, name: string): (r: bool)
    ensures r <==> forall i :: 0 <= i < |listing| ==> listing[i].name != name
  {
    name !in Names(listing)
  }

  /** The list comprehension of lines 110 and 140: the ids of the entries named `name`, in order. */
  function IdsNamed(listing: seq<PlaylistInfo>, name: string): (r: seq<string>)
    ensures |r| <= |listing|
    ensures forall id :: id in r ==> PlaylistInfo(id, name) in listing
  {
    if listing == [] then []
    else (if listing[0].name == name then [listing[0].id] else []) + IdsNamed(listing[1..], name)
  }

  /** Lines 110 and 140: `playlist_id, = IdsNamed(...)`, with the error the unpacking raises. */
  function LookupId(listing: seq<PlaylistInfo>, name: string): (r: Result<string, LookupError>)
    ensures r.Ok? ==> PlaylistInfo(r.value, name) in listing
  {
    var ids := IdsNamed(listing, name);
    if |ids| == 1 then Ok(ids[0])
    else if ids == [] then Err(NotEnoughValues)
    else Err(TooManyValues)
  }

  /**
   * Lines 92-140: the id the sync works on. When the listing has no playlist
   * of that name, one is created and `reread`, the listing fetched again
   * afterwards (line 108), is searched; otherwise the first listing is.
   */
  function TargetPlaylist(listing: seq<PlaylistInfo>, reread: seq<PlaylistInfo>, name: string): (r: Result<string, LookupError>)
    ensures r.Ok? ==> PlaylistInfo(r.value, name) in (if NeedsCreation(listing, name) then reread else listing)
    ensures !NeedsCreation(listing, name) ==> r != Err(NotEnoughValues)
  {
    if NeedsCreation(listing, name) then LookupId(reread, name)
    else ExistingNameFailsOnlyWhenShared(listing, name); LookupId(listing, name)
  }

  /** No id is found exactly when no entry has the name, that is, when the playlist would be created. */
  lemma {:induction false} IdsNamedEmptyIff(listing: seq<PlaylistInfo>, name: string)
    ensures IdsNamed(listing, name) == [] <==> forall i :: 0 <= i < |listing| ==> listing[i].name != name
    ensures IdsNamed(listing, name) == [] <==> NeedsCreation(listing, name)
    decreases |listing|
  {
    if listing != [] {
      IdsNamedEmptyIff(listing[1..], name);
      assert forall i :: 1 <= i < |listing| ==> listing[i] == listing[1..][i - 1];
    }
    if name in Names(listing) {
      var i :| 0 <= i < |listing| && Names(listing)[i] == name;
      assert listing[i].name == name;
    }
  }

  /** Entry `i` is the one and only entry of the listing named `name`. */
  predicate OnlyNamedAt(listing: seq<PlaylistInfo>, name: string, i: int)
  {
    && 0 <= i < |listing| && listing[i].name == name
    && forall j :: 0 <= j < |listing| && j != i ==> listing[j].name != name
  }

  /** A successful unpacking found the only entry with the name. */
  lemma {:induction false} LookupOkIsUnique(listing: seq<PlaylistInfo>, name: string)
    requires LookupId(listing, name).Ok?
    ensures exists i :: OnlyNamedAt(listing, name, i) && listing[i].id == LookupId(listing, name).value
    decreases |listing|
  {
    var rest := listing[1..];
    assert forall j :: 1 <= j < |listing| ==> listing[j] == rest[j - 1];
    if listing[0].name == name {
      assert |IdsNamed(rest, name)| == 0;
      IdsNamedEmptyIff(rest, name);
      assert OnlyNamedAt(listing, name, 0);
    } else {
      assert IdsNamed(listing, name) == IdsNamed(rest, name);
      LookupOkIsUnique(rest, name);
      var k :| OnlyNamedAt(rest, name, k) && rest[k].id == LookupId(rest, name).value;
      assert OnlyNamedAt(listing, name, k + 1);
    }
  }

  /** When exactly one entry has the name, the unpacking yields its id. */
  lemma {:induction false} UniqueLookupOk(listing: seq<PlaylistInfo>, name: string, i: int)
    requires OnlyNamedAt(listing, name, i)
    ensures LookupId(listing, name) == Ok(listing[i].id)
    decreases |listing|
  {
    var rest := listing[1..];
    assert forall j :: 1 <= j < |listing| ==> listing[j] == rest[j - 1];
    if i == 0 {
      IdsNamedEmptyIff(rest, name);
      assert IdsNamed(listing, name) == [listing[0].id] + [];
    } else {
      assert OnlyNamedAt(rest, name, i - 1);
      UniqueLookupOk(rest, name, i - 1);
      assert IdsNamed(listing, name) == IdsNamed(rest, name);
    }
  }

  /**
   * The unpacking succeeds exactly when one entry of the listing has the name,
   * and then yields that entry's id.
   */
  lemma LookupOkIffUnique(listing: seq<PlaylistInfo>, name: string, id: string)
    ensures LookupId(listing, name) == Ok(id) <==>
              exists i :: OnlyNamedAt(listing, name, i) && listing[i].id == id
  {
    if LookupId(listing, name) == Ok(id) {
      LookupOkIsUnique(listing, name);
    }
    if exists i :: OnlyNamedAt(listing, name, i) && listing[i].id == id {
      var i :| OnlyNamedAt(listing, name, i) && listing[i].id == id;
      UniqueLookupOk(listing, name, i);
    }
  }

  /** The unpacking raises "too many values" exactly when two different entries share the name. */
  lemma LookupTooManyIffShared(listing: seq<PlaylistInfo>, name: string)
    ensures LookupId(listing, name) == Err(TooManyValues) <==>
              exists i, j :: 0 <= i < j < |listing| && listing[i].name == name && listing[j].name == name
  {
    IdsNamedEmptyIff(listing, name);
    if LookupId(listing, name) == Err(TooManyValues) {
      var i :| 0 <= i < |listing| && listing[i].name == name;
      if !OnlyNamedAt(listing, name, i) {
        var j :| 0 <= j < |listing| && j != i && listing[j].name == name;
        if j < i {
          assert listing[j].name == name && listing[i].name == name;
        } else {
          assert listing[i].name == name && listing[j].name == name;
        }
      } else {
        UniqueLookupOk(listing, name, i);
        assert false;
      }
    }
    if exists i, j :: 0 <= i < j < |listing| && listing[i].name == name && listing[j].name == name {
      var i, j :| 0 <= i < j < |listing| && listing[i].name == name && listing[j].name == name;
      if LookupId(listing, name).Ok? {
        LookupOkIsUnique(listing, name);
      }
    }
  }

  /**
   * Line 140: when the name is already in the listing, the lookup can fail only
   * because several playlists share it.
   */
  lemma ExistingNameFailsOnlyWhenShared(listing: seq<PlaylistInfo>, name: string)
    requires !NeedsCreation(listing, name)
    ensures LookupId(listing, name) != Err(NotEnoughValues)
  {
    IdsNamedEmptyIff(listing, name);
  }

  /**
   * Lines 92-110: when no playlist has the name and the listing read after the
   * creation holds the new playlist, wherever it is inserted, the sync works on
   * the new playlist's id.
   */
  lemma CreatedPlaylistIsTarget(listing: seq<PlaylistInfo>, name: string, id: string, k: nat)
    requires NeedsCreation(listing, name) && k <= |listing|
    ensures TargetPlaylist(listing, listing[..k] + [PlaylistInfo(id, name)] + listing[k..], name) == Ok(id)
  {
    var reread := listing[..k] + [PlaylistInfo(id, name)] + listing[k..];
    IdsNamedEmptyIff(listing, name);
    forall j | 0 <= j < |reread| && j != k
      ensures reread[j].name != name
    {
      if j < k {
        assert reread[j] == listing[j];
      } else {
        assert reread[j] == listing[j - 1];
      }
    }
    assert OnlyNamedAt(reread, name, k);
    UniqueLookupOk(reread, name, k);
  }
}
