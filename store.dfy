/**
 * The Spotify account the playlist pipelines write to, reduced to what they
 * use of it: the user's playlists in listing order, each with an id, a name,
 * a description, a visibility flag and its track URIs. The calls of the
 * Spotify client become methods of `Account`.
 */
module Store {
  import opened Js

  datatype Playlist = Playlist(id: nat, name: string, description: string, isPublic: bool,
                               tracks: seq<string>)

  /**
   * `playlists.find(p => p.name === name)` and the `for` loop of index.ts:
   * the position of the first playlist with that name, if there is one.
   */
  function FirstNamed(ps: seq<Playlist>, name: string): (r: Option<nat>)
    ensures r.Some? ==> r.value < |ps| && ps[r.value].name == name
    ensures r.Some? ==> forall j :: 0 <= j < r.value ==> ps[j].name != name
    ensures r.None? <==> forall j :: 0 <= j < |ps| ==> ps[j].name != name
  {
    if ps == [] then None
    else if ps[0].name == name then Some(0)
    else
      var r := FirstNamed(ps[1..], name);
      if r.Some? then Some(r.value + 1) else None
  }

  /** `removeItemsFromPlaylist`: every occurrence of every listed URI goes, the rest keep their order. */
  function Without(s: seq<string>, drop: seq<string>): (r: seq<string>)
    ensures forall x :: x in r <==> x in s && x !in drop
    ensures |r| <= |s|
  {
    if s == [] then []
    else
      var rest := Without(s[1..], drop);
      assert s == [s[0]] + s[1..];
      if s[0] in drop then rest else [s[0]] + rest
  }

  /** Removal works element by element, so the tracks that stay keep their order. */
  lemma {:induction false} WithoutAppend(a: seq<string>, b: seq<string>, drop: seq<string>)
    ensures Without(a + b, drop) == Without(a, drop) + Without(b, drop)
  {
    if a != [] {
      WithoutAppend(a[1..], b, drop);
      assert (a + b)[1..] == a[1..] + b;
    } else {
      assert a + b == b;
    }
  }

  /** Removing every URI a playlist lists leaves it empty. */
  lemma {:induction false} WithoutItselfIsEmpty(s: seq<string>)
    ensures Without(s, s) == []
  {
    if Without(s, s) != [] {
      assert Without(s, s)[0] in Without(s, s);
    }
  }

  /** The playlists with `f` applied to the one(s) whose id is `id`. */
  function UpdateId(ps: seq<Playlist>, id: nat, f: Playlist -> Playlist): (r: seq<Playlist>)
    ensures |r| == |ps|
    ensures forall i :: 0 <= i < |ps| ==> r[i] == if ps[i].id == id then f(ps[i]) else ps[i]
  {
    seq(|ps|, i requires 0 <= i < |ps| => if ps[i].id == id then f(ps[i]) else ps[i])
  }

  /** Ids are pairwise different. */
  predicate UniqueIds(ps: seq<Playlist>)
  {
    forall i, j :: 0 <= i < j < |ps| ==> ps[i].id != ps[j].id
  }

  /** With unique ids, updating by the id of position `i` updates that position only. */
  lemma UpdateIdAt(ps: seq<Playlist>, i: nat, f: Playlist -> Playlist)
    requires UniqueIds(ps) && i < |ps|
    ensures UpdateId(ps, ps[i].id, f) == ps[i := f(ps[i])]
  {
    var r := UpdateId(ps, ps[i].id, f);
    forall j | 0 <= j < |ps| ensures r[j] == ps[i := f(ps[i])][j] {
      if j < i {
        assert ps[j].id != ps[i].id;
      } else if j > i {
        assert ps[i].id != ps[j].id;
      }
    }
  }

  /** Updating by the id of a playlist appended after all others updates that playlist only. */
  lemma UpdateIdLast(ps: seq<Playlist>, p: Playlist, f: Playlist -> Playlist)
    requires forall j :: 0 <= j < |ps| ==> ps[j].id != p.id
    ensures UpdateId(ps + [p], p.id, f) == ps + [f(p)]
  {
    var r := UpdateId(ps + [p], p.id, f);
    forall j | 0 <= j < |ps| + 1 ensures r[j] == (ps + [f(p)])[j] {
      if j < |ps| {
        assert (ps + [p])[j] == ps[j];
      }
    }
  }

  /** The visibility of a new playlist: Spotify makes it public when the request does not say. */
  function Visibility(requested: Option<bool>): bool
  {
    if requested.Some? then requested.value else true
  }

  class Account {
    /** `getUsersPlaylists`, in listing order. */
    var playlists: seq<Playlist>
    /** The id the next created playlist receives. */
    var nextId: nat

    /** Ids are unique and all below `nextId`. */
    ghost predicate Valid()
      reads this
    {
      && (forall i :: 0 <= i < |playlists| ==> playlists[i].id < nextId)
      && UniqueIds(playlists)
    }

    constructor (initial: seq<Playlist>, next: nat)
      requires UniqueIds(initial) && forall i :: 0 <= i < |initial| ==> initial[i].id < next
      ensures Valid()
      ensures playlists == initial && nextId == next
    {
      playlists := initial;
      nextId := next;
    }

    /** `changePlaylistDetails(id, {description})`. */
    method ChangeDescription(id: nat, description: string)
      requires Valid()
      modifies this
      ensures Valid()
      ensures nextId == old(nextId)
      ensures playlists == UpdateId(old(playlists), id, (p: Playlist) => p.(description := description))
    {
      playlists := UpdateId(playlists, id, (p: Playlist) => p.(description := description));
    }

    /** `removeItemsFromPlaylist(id, {tracks})`. */
    method RemoveItems(id: nat, uris: seq<string>)
      requires Valid()
      modifies this
      ensures Valid()
      ensures nextId == old(nextId)
      ensures playlists == UpdateId(old(playlists), id, (p: Playlist) => p.(tracks := Without(p.tracks, uris)))
    {
      playlists := UpdateId(playlists, id, (p: Playlist) => p.(tracks := Without(p.tracks, uris)));
    }

    /** `addItemsToPlaylist(id, uris)`: appended after the existing tracks, in order. */
    method AddItems(id: nat, uris: seq<string>)
      requires Valid()
      modifies this
      ensures Valid()
      ensures nextId == old(nextId)
      ensures playlists == UpdateId(old(playlists), id, (p: Playlist) => p.(tracks := p.tracks + uris))
    {
      playlists := UpdateId(playlists, id, (p: Playlist) => p.(tracks := p.tracks + uris));
    }

    /** `replaceTracksInPlaylist(id, uris)`. */
    method ReplaceTracks(id: nat, uris: seq<string>)
      requires Valid()
      modifies this
      ensures Valid()
      ensures nextId == old(nextId)
      ensures playlists == UpdateId(old(playlists), id, (p: Playlist) => p.(tracks := uris))
    {
      playlists := UpdateId(playlists, id, (p: Playlist) => p.(tracks := uris));
    }

    /**
     * `createPlaylist(userId, {name, description, public?})`: a new, empty
     * playlist at the end of the listing.
     */
    method CreatePlaylist(name: string, description: string, isPublic: Option<bool>) returns (id: nat)
      requires Valid()
      modifies this
      ensures Valid()
      ensures id == old(nextId) && nextId == old(nextId) + 1
      ensures playlists == old(playlists) + [Playlist(id, name, description, Visibility(isPublic), [])]
    {
      id := nextId;
      playlists := playlists + [Playlist(id, name, description, Visibility(isPublic), [])];
      nextId := nextId + 1;
    }
  }
}
