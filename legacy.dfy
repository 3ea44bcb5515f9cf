/**
 * `createPlaylist` of index.ts, the older form of the pipeline. It asks the
 * Last.fm station for songs again and again, looks each new song up on
 * Spotify by its title and first artist, keeps the first hit, and stops
 * once `amount` songs are kept. Then it finds the user's playlist by name,
 * creating it if there is none, and replaces its tracks with the hits.
 *
 * Each `getPlaylist(username, type)` call has no `amount`, so it requests
 * page 1 only. The station serves a new page 1 on every call: `responses[c]`
 * is the page served to call `c`. The model's list of responses is finite;
 * a run that would need more of them ends with `OutOfResponses`.
 */
module Legacy {
  import opened Js
  import opened Store
  import opened LastFm

  /** `playlistOpts`: the caller's name, description and visibility, each of which may be absent. */
  datatype PlaylistOpts = PlaylistOpts(name: Option<string>, description: Option<string>, isPublic: Option<bool>)

  /** `playlistOpts` after the three `??=` assignments. */
  datatype Settings = Settings(name: string, description: string, isPublic: bool)

  const NoOpts := PlaylistOpts(None, None, None)

  /** A kept song: the Last.fm song and the URI of its Spotify hit. */
  datatype Pick = Pick(song: Song, uri: string)

  /** The collection so far, or the URL of the song whose missing artist made the lookup throw. */
  datatype Gather = Gathering(picks: seq<Pick>) | NoArtist(url: string)

  /** Why `createPlaylist` ends without touching the playlists. */
  datatype Failure = MissingArtist(url: string) | OutOfResponses

  datatype Status = Completed | Threw(failure: Failure)

  /** The three `??=`: a supplied value is kept, an absent one gets its default. */
  function Defaulted(username: string, kind: string, opts: PlaylistOpts): (s: Settings)
    ensures opts.name.Some? ==> s.name == opts.name.value
    ensures opts.name.None? ==> s.name == username + "'s " + kind
    ensures opts.description.Some? ==> s.description == opts.description.value
    ensures opts.description.None? ==>
      s.description == "A playlist of " + kind + " songs from " + username + "'s Last.fm library."
    ensures opts.isPublic.Some? ==> s.isPublic == opts.isPublic.value
    ensures opts.isPublic.None? ==> !s.isPublic
  {
    Settings(if opts.name.Some? then opts.name.value else username + "'s " + kind,
             if opts.description.Some? then opts.description.value
             else "A playlist of " + kind + " songs from " + username + "'s Last.fm library.",
             if opts.isPublic.Some? then opts.isPublic.value else false)
  }

  /** The search query: the title and the first artist only. */
  function Query(s: Song): string
    requires |s.artists| > 0
  {
    "track:" + s.name + " artist:" + s.artists[0]
  }

  /** Artists after the first play no part in the lookup. */
  lemma QueryUsesFirstArtist(s: Song, others: seq<string>)
    requires |s.artists| > 0
    ensures Query(s.(artists := [s.artists[0]] + others)) == Query(s)
  {
  }

  /** The keys of the `songs` Map, in insertion order. */
  function Keys(picks: seq<Pick>): (r: seq<string>)
    ensures |r| == |picks|
    ensures forall i :: 0 <= i < |picks| ==> r[i] == picks[i].song.url
  {
    seq(|picks|, i requires 0 <= i < |picks| => picks[i].song.url)
  }

  /** `[...songs.values()].map(song => song.spotify.uri)`. */
  function Uris(picks: seq<Pick>): (r: seq<string>)
    ensures |r| == |picks|
    ensures forall i :: 0 <= i < |picks| ==> r[i] == picks[i].uri
  {
    seq(|picks|, i requires 0 <= i < |picks| => picks[i].uri)
  }

  /** The collection has reached `amount` songs, or the lookup threw. */
  predicate Done(g: Gather, amount: int)
  {
    g.NoArtist? || |g.picks| >= amount
  }

  /**
   * One turn of the inner `for` loop: nothing once `amount` songs are kept
   * (the loop breaks); a song whose URL is kept already is skipped; a song
   * without artists makes the query throw; otherwise the first hit, if
   * any, is kept under the song's URL.
   */
  function Consider(g: Gather, s: Song, search: string -> seq<string>, amount: int): Gather
  {
    if Done(g, amount) then g
    else if s.url in Keys(g.picks) then g
    else if |s.artists| == 0 then NoArtist(s.url)
    else
      var items := search(Query(s));
      if items == [] then g else Gathering(g.picks + [Pick(s, items[0])])
  }

  /** The inner loop over the songs `ss` of one response. */
  function ConsiderAll(g: Gather, ss: seq<Song>, search: string -> seq<string>, amount: int): Gather
  {
    if ss == [] then g
    else Consider(ConsiderAll(g, ss[..|ss| - 1], search, amount), ss[|ss| - 1], search, amount)
  }

  /** The collection after the first `n` station calls. */
  function Gathered(responses: seq<seq<Song>>, n: nat, search: string -> seq<string>, amount: int): Gather
    requires n <= |responses|
  {
    if n == 0 then Gathering([])
    else ConsiderAll(Gathered(responses, n - 1, search, amount), Collect(responses[n - 1]), search, amount)
  }

  /** A song whose URL is kept already is skipped whatever the search would say: it is not searched. */
  lemma KnownSongNotSearched(g: Gather, s: Song, search1: string -> seq<string>, search2: string -> seq<string>,
                             amount: int)
    requires g.Gathering? && s.url in Keys(g.picks)
    ensures Consider(g, s, search1, amount) == Consider(g, s, search2, amount) == g
  {
  }

  /** A song without a search hit is skipped and not recorded. */
  lemma MissIsSkipped(g: Gather, s: Song, search: string -> seq<string>, amount: int)
    requires |s.artists| > 0 && search(Query(s)) == []
    ensures Consider(g, s, search, amount) == g
  {
  }

  /** What every collection satisfies: distinct URLs, at most `amount` of them, each pick a first hit. */
  ghost predicate WellPicked(g: Gather, search: string -> seq<string>, amount: int)
  {
    g.Gathering? ==>
      && Distinct(Keys(g.picks))
      && |g.picks| <= Max(0, amount)
      && forall i :: 0 <= i < |g.picks| ==>
           |g.picks[i].song.artists| > 0 && search(Query(g.picks[i].song)) != []
           && g.picks[i].uri == search(Query(g.picks[i].song))[0]
  }

  lemma ConsiderKeepsWellPicked(g: Gather, s: Song, search: string -> seq<string>, amount: int)
    requires WellPicked(g, search, amount)
    ensures WellPicked(Consider(g, s, search, amount), search, amount)
  {
    var g' := Consider(g, s, search, amount);
    if g'.Gathering? && g' != g {
      assert g'.picks == g.picks + [Pick(s, search(Query(s))[0])];
      assert Keys(g'.picks) == Keys(g.picks) + [s.url];
    }
  }

  lemma {:induction false} ConsiderAllKeepsWellPicked(g: Gather, ss: seq<Song>, search: string -> seq<string>,
                                                    amount: int)
    requires WellPicked(g, search, amount)
    ensures WellPicked(ConsiderAll(g, ss, search, amount), search, amount)
  {
    if ss != [] {
      ConsiderAllKeepsWellPicked(g, ss[..|ss| - 1], search, amount);
      ConsiderKeepsWellPicked(ConsiderAll(g, ss[..|ss| - 1], search, amount), ss[|ss| - 1], search, amount);
    }
  }

  /** Every collection the station calls build is well picked. */
  lemma {:induction false} GatheredWellPicked(responses: seq<seq<Song>>, n: nat, search: string -> seq<string>,
                                             amount: int)
    requires n <= |responses|
    ensures WellPicked(Gathered(responses, n, search, amount), search, amount)
  {
    if n > 0 {
      GatheredWellPicked(responses, n - 1, search, amount);
      ConsiderAllKeepsWellPicked(Gathered(responses, n - 1, search, amount), Collect(responses[n - 1]),
                                 search, amount);
    }
  }

  /** A finished collection stays as it is. */
  lemma {:induction false} ConsiderAllDone(g: Gather, ss: seq<Song>, search: string -> seq<string>, amount: int)
    requires Done(g, amount)
    ensures ConsiderAll(g, ss, search, amount) == g
  {
    if ss != [] {
      ConsiderAllDone(g, ss[..|ss| - 1], search, amount);
    }
  }

  lemma ConsiderAllSnoc(g: Gather, ss: seq<Song>, s: Song, search: string -> seq<string>, amount: int)
    ensures ConsiderAll(g, ss + [s], search, amount) == Consider(ConsiderAll(g, ss, search, amount), s, search, amount)
  {
    assert (ss + [s])[..|ss|] == ss;
  }

  /** Once finished after the first response, no walk of the rest of it changes the collection. */
  lemma {:induction false} ConsiderAllStaysDone(g: Gather, ss: seq<Song>, more: seq<Song>,
                                               search: string -> seq<string>, amount: int)
    requires Done(ConsiderAll(g, ss, search, amount), amount)
    ensures ConsiderAll(g, ss + more, search, amount) == ConsiderAll(g, ss, search, amount)
  {
    if more != [] {
      var init := more[..|more| - 1];
      ConsiderAllStaysDone(g, ss, init, search, amount);
      assert ss + more == (ss + init) + [more[|more| - 1]];
      ConsiderAllSnoc(g, ss + init, more[|more| - 1], search, amount);
    } else {
      assert ss + more == ss;
    }
  }

  /**
   * How the `do ... while` loop ends after `n` station calls: finished
   * then, and not yet finished after the call before.
   */
  ghost predicate EndsAfter(responses: seq<seq<Song>>, search: string -> seq<string>, amount: int, n: nat)
  {
    && 1 <= n <= |responses|
    && Done(Gathered(responses, n, search, amount), amount)
    && (n > 1 ==> !Done(Gathered(responses, n - 1, search, amount), amount))
  }

  /** Finished collections stay finished over further calls. */
  lemma {:induction false} DoneStaysDone(responses: seq<seq<Song>>, search: string -> seq<string>, amount: int,
                                         m: nat, n: nat)
    requires m <= n <= |responses|
    requires Done(Gathered(responses, m, search, amount), amount)
    ensures Gathered(responses, n, search, amount) == Gathered(responses, m, search, amount)
    decreases n
  {
    if m < n {
      DoneStaysDone(responses, search, amount, m, n - 1);
      ConsiderAllDone(Gathered(responses, n - 1, search, amount), Collect(responses[n - 1]), search, amount);
    }
  }

  /** The loop ends at the first call after which the collection is finished. */
  lemma EndsAtFirst(responses: seq<seq<Song>>, search: string -> seq<string>, amount: int, n: nat, m: nat)
    requires EndsAfter(responses, search, amount, n) && 1 <= m < n
    ensures !Done(Gathered(responses, m, search, amount), amount)
  {
    if Done(Gathered(responses, m, search, amount), amount) {
      DoneStaysDone(responses, search, amount, m, n - 1);
      assert false;
    }
  }

  /** A loop that ends with no error keeps exactly `amount` songs, or none for a negative `amount`. */
  lemma FilledToAmount(responses: seq<seq<Song>>, search: string -> seq<string>, amount: int, n: nat)
    requires EndsAfter(responses, search, amount, n)
    requires Gathered(responses, n, search, amount).Gathering?
    ensures |Gathered(responses, n, search, amount).picks| == Max(0, amount)
  {
    GatheredWellPicked(responses, n, search, amount);
  }

  /** The response to call `c`, as `getPlaylist(username, type)` returns it: page 1, deduplicated by URL. */
  method Call(responses: seq<seq<Song>>, c: nat) returns (playlist: seq<Song>)
    requires c < |responses|
    ensures playlist == Collect(responses[c])
  {
    var listing := GetPlaylist([responses[c]], None);
    assert Feed([responses[c]], 1) == [] + responses[c];
    assert [] + responses[c] == responses[c];
    OnePageWithoutAmount([responses[c]], listing.pagesFetched);
    playlist := listing.songs;
  }

  /** The inner `for` loop over one response. */
  method ConsiderSongs(g0: Gather, playlist: seq<Song>, search: string -> seq<string>, amount: int)
    returns (g: Gather)
    requires g0.Gathering?
    ensures g == ConsiderAll(g0, playlist, search, amount)
  {
    var songs := g0.picks;
    var j := 0;
    while j < |playlist|
      invariant 0 <= j <= |playlist|
      invariant Gathering(songs) == ConsiderAll(g0, playlist[..j], search, amount)
    {
      var song := playlist[j];
      ConsiderAllSnoc(g0, playlist[..j], song, search, amount);
      assert playlist[..j + 1] == playlist[..j] + [song];
      if |songs| >= amount {
        ConsiderAllStaysDone(g0, playlist[..j], playlist[j..], search, amount);
        assert playlist[..j] + playlist[j..] == playlist;
        return Gathering(songs);
      }
      if song.url in Keys(songs) {
        j := j + 1;
        continue;
      }
      if |song.artists| == 0 {
        g := NoArtist(song.url);
        ConsiderAllStaysDone(g0, playlist[..j + 1], playlist[j + 1..], search, amount);
        assert playlist[..j + 1] + playlist[j + 1..] == playlist;
        return;
      }
      var items := search(Query(song));
      if items != [] {
        songs := songs + [Pick(song, items[0])];
      }
      j := j + 1;
    }
    assert playlist[..j] == playlist;
    g := Gathering(songs);
  }

  /** The state of the outer loop after `calls` station calls. */
  ghost predicate Calling(responses: seq<seq<Song>>, search: string -> seq<string>, amount: int, calls: nat,
                          g: Gather)
  {
    && 1 <= calls <= |responses|
    && g == Gathered(responses, calls, search, amount)
    && (calls > 1 ==> !Done(Gathered(responses, calls - 1, search, amount), amount))
  }

  /**
   * The outer `do ... while` loop. Returns the collection and the number of
   * station calls made; the collection is unfinished only when the model's
   * responses ran out.
   */
  method GatherSongs(responses: seq<seq<Song>>, search: string -> seq<string>, amount: int)
    returns (g: Gather, calls: nat)
    requires |responses| > 0
    ensures Calling(responses, search, amount, calls, g)
    ensures Done(g, amount) ==> EndsAfter(responses, search, amount, calls)
    ensures !Done(g, amount) ==> calls == |responses|
  {
    var playlist := Call(responses, 0);
    g := ConsiderSongs(Gathering([]), playlist, search, amount);
    calls := 1;
    while !Done(g, amount) && calls < |responses|
      invariant Calling(responses, search, amount, calls, g)
      decreases |responses| - calls
    {
      playlist := Call(responses, calls);
      g := ConsiderSongs(g, playlist, search, amount);
      calls := calls + 1;
    }
  }

  /** The `for` loop over the user's playlists: the id of the first one named `name`. */
  method FindPlaylistId(playlists: seq<Playlist>, name: string) returns (id: Option<nat>)
    ensures id.Some? <==> FirstNamed(playlists, name).Some?
    ensures id.Some? ==> id.value == playlists[FirstNamed(playlists, name).value].id
  {
    id := None;
    var i := 0;
    while i < |playlists|
      invariant 0 <= i <= |playlists|
      invariant forall j :: 0 <= j < i ==> playlists[j].name != name
    {
      if playlists[i].name == name {
        id := Some(playlists[i].id);
        return;
      }
      i := i + 1;
    }
  }

  /** The `public` field of the create request as index.ts builds it: it sends name and description only. */
  function RequestedVisibilityAsWritten(s: Settings): Option<bool>
  {
    None
  }

  /** The request carrying the defaulted `public` flag, as the `??=` on it intends. */
  function RequestedVisibility(s: Settings): Option<bool>
  {
    Some(s.isPublic)
  }

  /** With the defaults, a private playlist is asked for, but the request as written creates a public one. */
  lemma DefaultPrivateCreatedPublic(username: string, kind: string)
    ensures !Defaulted(username, kind, NoOpts).isPublic
    ensures Visibility(RequestedVisibilityAsWritten(Defaulted(username, kind, NoOpts)))
  {
  }

  /** Passing the flag, the created playlist has the visibility asked for. */
  lemma VisibilityAsAsked(s: Settings)
    ensures Visibility(RequestedVisibility(s)) == s.isPublic
  {
  }

  /**
   * The part of `createPlaylist` before the playlists are touched: the
   * collection loop, ending in a thrown lookup, in the model's responses
   * running out, or with the URIs of the kept songs to save.
   */
  method TryGather(responses: seq<seq<Song>>, search: string -> seq<string>, amount: int)
    returns (status: Status, calls: nat, uris: seq<string>)
    ensures status.Threw? && status.failure.MissingArtist? ==>
      EndsAfter(responses, search, amount, calls)
      && Gathered(responses, calls, search, amount) == NoArtist(status.failure.url)
    ensures status.Threw? && status.failure.OutOfResponses? ==>
      calls == |responses| && (calls > 0 ==> !Done(Gathered(responses, calls, search, amount), amount))
    ensures status.Completed? ==>
      && EndsAfter(responses, search, amount, calls)
      && Gathered(responses, calls, search, amount).Gathering?
      && uris == Uris(Gathered(responses, calls, search, amount).picks)
  {
    if |responses| == 0 {
      return Threw(OutOfResponses), 0, [];
    }
    var g;
    g, calls := GatherSongs(responses, search, amount);
    if !Done(g, amount) {
      return Threw(OutOfResponses), calls, [];
    }
    if g.NoArtist? {
      return Threw(MissingArtist(g.url)), calls, [];
    }
    return Completed, calls, Uris(g.picks);
  }

  /**
   * `createPlaylist({username, type, amount, playlistOpts})` as written. On
   * an error the playlists are untouched. Otherwise the playlist named by the
   * settings, the first one with that name or a new one, ends up holding the
   * URIs of the kept songs, in the order they were kept. A new playlist is
   * public whatever `playlistOpts.public` says, since the request omits it.
   */
  method CreatePlaylist(account: Account, username: string, kind: string, amount: int, opts: PlaylistOpts,
                        responses: seq<seq<Song>>, search: string -> seq<string>)
    returns (status: Status, calls: nat)
    requires account.Valid()
    modifies account
    ensures account.Valid()
    ensures status.Threw? ==> account.playlists == old(account.playlists) && account.nextId == old(account.nextId)
    ensures status.Threw? && status.failure.MissingArtist? ==>
      EndsAfter(responses, search, amount, calls)
      && Gathered(responses, calls, search, amount) == NoArtist(status.failure.url)
    ensures status.Threw? && status.failure.OutOfResponses? ==>
      calls == |responses| && (calls > 0 ==> !Done(Gathered(responses, calls, search, amount), amount))
    ensures status.Completed? ==>
      && EndsAfter(responses, search, amount, calls)
      && Gathered(responses, calls, search, amount).Gathering?
    ensures status.Completed? ==>
      var picks := Gathered(responses, calls, search, amount).picks;
      var s := Defaulted(username, kind, opts);
      var ps := old(account.playlists);
      var i := FirstNamed(ps, s.name);
      && (i.Some? ==> account.nextId == old(account.nextId) && account.playlists == ps[i.value := ps[i.value].(tracks := Uris(picks))])
      && (i.None? ==> account.nextId == old(account.nextId) + 1
                      && account.playlists == ps + [Playlist(old(account.nextId), s.name, s.description, true, Uris(picks))])
  {
    var settings := Defaulted(username, kind, opts);
    var uris;
    status, calls, uris := TryGather(responses, search, amount);
    if status.Completed? {
      Save(account, settings, uris);
    }
  }

  /** `createPlaylist` with the defaulted `public` flag sent: a new playlist has the visibility asked for. */
  method CreatePlaylistAsIntended(account: Account, username: string, kind: string, amount: int, opts: PlaylistOpts,
                                  responses: seq<seq<Song>>, search: string -> seq<string>)
    returns (status: Status, calls: nat)
    requires account.Valid()
    modifies account
    ensures account.Valid()
    ensures status.Threw? ==> account.playlists == old(account.playlists) && account.nextId == old(account.nextId)
    ensures status.Threw? && status.failure.MissingArtist? ==>
      EndsAfter(responses, search, amount, calls)
      && Gathered(responses, calls, search, amount) == NoArtist(status.failure.url)
    ensures status.Threw? && status.failure.OutOfResponses? ==>
      calls == |responses| && (calls > 0 ==> !Done(Gathered(responses, calls, search, amount), amount))
    ensures status.Completed? ==>
      && EndsAfter(responses, search, amount, calls)
      && Gathered(responses, calls, search, amount).Gathering?
    ensures status.Completed? ==>
      var picks := Gathered(responses, calls, search, amount).picks;
      var s := Defaulted(username, kind, opts);
      var ps := old(account.playlists);
      var i := FirstNamed(ps, s.name);
      && (i.Some? ==> account.nextId == old(account.nextId) && account.playlists == ps[i.value := ps[i.value].(tracks := Uris(picks))])
      && (i.None? ==> account.nextId == old(account.nextId) + 1
                      && account.playlists == ps + [Playlist(old(account.nextId), s.name, s.description, s.isPublic, Uris(picks))])
  {
    var settings := Defaulted(username, kind, opts);
    var uris;
    status, calls, uris := TryGather(responses, search, amount);
    if status.Completed? {
      SaveAsIntended(account, settings, uris);
    }
  }

  /**
   * The end of `createPlaylist` as written: the first playlist named
   * `s.name`, or a new one made from the name and description, gets its
   * tracks replaced by `uris`. The create request carries no `public`, so a
   * new playlist is public.
   */
  method Save(account: Account, s: Settings, uris: seq<string>)
    requires account.Valid()
    modifies account
    ensures account.Valid()
    ensures var ps := old(account.playlists);
      var i := FirstNamed(ps, s.name);
      && (i.Some? ==> account.nextId == old(account.nextId) && account.playlists == ps[i.value := ps[i.value].(tracks := uris)])
      && (i.None? ==> account.nextId == old(account.nextId) + 1
                      && account.playlists == ps + [Playlist(old(account.nextId), s.name, s.description, true, uris)])
  {
    SaveRequesting(account, s, RequestedVisibilityAsWritten(s), uris);
  }

  /** The end of `createPlaylist` with the `public` flag sent: a new playlist has visibility `s.isPublic`. */
  method SaveAsIntended(account: Account, s: Settings, uris: seq<string>)
    requires account.Valid()
    modifies account
    ensures account.Valid()
    ensures var ps := old(account.playlists);
      var i := FirstNamed(ps, s.name);
      && (i.Some? ==> account.nextId == old(account.nextId) && account.playlists == ps[i.value := ps[i.value].(tracks := uris)])
      && (i.None? ==> account.nextId == old(account.nextId) + 1
                      && account.playlists == ps + [Playlist(old(account.nextId), s.name, s.description, s.isPublic, uris)])
  {
    VisibilityAsAsked(s);
    SaveRequesting(account, s, RequestedVisibility(s), uris);
  }

  /** Find-or-create then replace, creating with the visibility `request` asks for. */
  method SaveRequesting(account: Account, s: Settings, request: Option<bool>, uris: seq<string>)
    requires account.Valid()
    modifies account
    ensures account.Valid()
    ensures var ps := old(account.playlists);
      var i := FirstNamed(ps, s.name);
      && (i.Some? ==> account.nextId == old(account.nextId) && account.playlists == ps[i.value := ps[i.value].(tracks := uris)])
      && (i.None? ==> account.nextId == old(account.nextId) + 1
                      && account.playlists == ps + [Playlist(old(account.nextId), s.name, s.description,
                                                             Visibility(request), uris)])
  {
    var ps := account.playlists;
    var found := FindPlaylistId(ps, s.name);
    if found.Some? {
      account.ReplaceTracks(found.value, uris);
      UpdateIdAt(ps, FirstNamed(ps, s.name).value, (p: Playlist) => p.(tracks := uris));
    } else {
      var id := account.CreatePlaylist(s.name, s.description, request);
      ghost var created := account.playlists;
      account.ReplaceTracks(id, uris);
      UpdateIdLast(ps, created[|ps|], (p: Playlist) => p.(tracks := uris));
    }
  }
}
