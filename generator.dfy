/**
 * `PlaylistGenerator` (src/generator.ts).
 *
 * `fetchTracks` walks the pages of a user's Last.fm station, looks each
 * track up on Spotify, and collects distinct track URIs until it has
 * `amount` of them or the station runs dry. `create` finds the user's
 * playlist by name (or creates it), empties it, and adds the tracks.
 *
 * The station is a finite sequence of pages, and any page past the end is
 * empty. The Spotify search is a function from a query to the URIs it
 * finds, best first.
 */
module Generator {
  import opened Js
  import opened Store

  /** A station track: its title and its artists' names. */
  datatype Track = Track(name: string, artists: seq<string>)

  /** The key of a track, used for the not-found set: the title, " - ", the artists joined with ", ". */
  function TrackKey(t: Track): string
  {
    t.name + " - " + Join(t.artists, ", ")
  }

  function ArtistTerms(artists: seq<string>): (r: seq<string>)
    ensures |r| == |artists|
    ensures forall i :: 0 <= i < |r| ==> r[i] == "artist:" + artists[i]
  {
    seq(|artists|, i requires 0 <= i < |artists| => "artist:" + artists[i])
  }

  /** The search query: "track:" and the title, then "artist:" and each artist, separated by spaces. */
  function Query(t: Track): string
  {
    "track:" + t.name + " " + Join(ArtistTerms(t.artists), " ")
  }

  /**
   * The key starts with the title and " - "; with one artist it is the title,
   * " - " and that artist, and in general its length counts every artist name
   * and a ", " between each two.
   */
  lemma TrackKeyLayout(t: Track)
    ensures TrackKey(t)[..|t.name| + 3] == t.name + " - "
    ensures |t.artists| == 1 ==> TrackKey(t) == t.name + " - " + t.artists[0]
    ensures |t.artists| >= 1 ==> |TrackKey(t)| == |t.name| + 3 + TotalLength(t.artists) + 2 * (|t.artists| - 1)
  {
    assert (t.name + " - ") + Join(t.artists, ", ") == TrackKey(t);
  }

  /** With one artist the query is "track:<title> artist:<artist>". */
  lemma QueryOneArtist(t: Track)
    requires |t.artists| == 1
    ensures Query(t) == "track:" + t.name + " artist:" + t.artists[0]
  {
    assert ArtistTerms(t.artists) == ["artist:" + t.artists[0]];
  }

  /** The loop state: the `found` Set in insertion order, the `notFound` Set, and the tracks searched so far. */
  datatype Progress = Progress(found: seq<string>, notFound: set<string>, searched: seq<Track>)

  /**
   * The inner loop body on one track. Once `found` holds `target` URIs
   * nothing more happens. A track whose key is in `notFound` is skipped.
   * Otherwise the first hit of its search joins `found`, or its key joins
   * `notFound`.
   */
  function Step(st: Progress, t: Track, search: string -> seq<string>, target: int): Progress
  {
    if |st.found| >= target then st
    else
      var key := TrackKey(t);
      if key in st.notFound then st
      else
        var items := search(Query(t));
        if |items| > 0 then Progress(AddNew(st.found, items[0]), st.notFound, st.searched + [t])
        else Progress(st.found, st.notFound + {key}, st.searched + [t])
  }

  /** The loop state after walking the tracks `ts`. */
  function Run(ts: seq<Track>, search: string -> seq<string>, target: int): Progress
  {
    if ts == [] then Progress([], {}, [])
    else Step(Run(ts[..|ts| - 1], search, target), ts[|ts| - 1], search, target)
  }

  lemma RunSnoc(ts: seq<Track>, t: Track, search: string -> seq<string>, target: int)
    ensures Run(ts + [t], search, target) == Step(Run(ts, search, target), t, search, target)
  {
    assert (ts + [t])[..|ts|] == ts;
  }

  /** The first hit of every searched track whose search found something. */
  function Hits(searched: seq<Track>, search: string -> seq<string>): seq<string>
  {
    if searched == [] then []
    else
      var items := search(Query(searched[|searched| - 1]));
      Hits(searched[..|searched| - 1], search) + (if |items| > 0 then [items[0]] else [])
  }

  /** The keys of the searched tracks whose search found nothing. */
  function Misses(searched: seq<Track>, search: string -> seq<string>): set<string>
  {
    set i | 0 <= i < |searched| && search(Query(searched[i])) == [] :: TrackKey(searched[i])
  }

  lemma HitsSnoc(s: seq<Track>, t: Track, search: string -> seq<string>)
    ensures var items := search(Query(t));
      Hits(s + [t], search) == Hits(s, search) + (if |items| > 0 then [items[0]] else [])
  {
    assert (s + [t])[..|s|] == s;
  }

  lemma MissesSnoc(s: seq<Track>, t: Track, search: string -> seq<string>)
    ensures Misses(s + [t], search)
         == Misses(s, search) + (if search(Query(t)) == [] then {TrackKey(t)} else {})
  {
    var s' := s + [t];
    forall k | k in Misses(s', search)
      ensures k in Misses(s, search) + (if search(Query(t)) == [] then {TrackKey(t)} else {})
    {
      var i :| 0 <= i < |s'| && search(Query(s'[i])) == [] && TrackKey(s'[i]) == k;
      if i < |s| {
        assert s'[i] == s[i];
      }
    }
    forall k | k in Misses(s, search) ensures k in Misses(s', search) {
      var i :| 0 <= i < |s| && search(Query(s[i])) == [] && TrackKey(s[i]) == k;
      assert s'[i] == s[i];
    }
    if search(Query(t)) == [] {
      assert s'[|s|] == t;
    }
  }

  lemma DedupSnoc<T>(s: seq<T>, x: T)
    ensures Dedup(s + [x]) == AddNew(Dedup(s), x)
  {
    assert (s + [x])[..|s|] == s;
  }

  /**
   * The `found` Set is the distinct first hits of the searched tracks, in
   * the order they were first found.
   */
  lemma {:induction false} RunFoundIsHits(ts: seq<Track>, search: string -> seq<string>, target: int)
    ensures Run(ts, search, target).found == Dedup(Hits(Run(ts, search, target).searched, search))
  {
    if ts != [] {
      var prev := ts[..|ts| - 1];
      var t := ts[|ts| - 1];
      RunFoundIsHits(prev, search, target);
      var st := Run(prev, search, target);
      assert Run(ts, search, target) == Step(st, t, search, target);
      if |st.found| < target && TrackKey(t) !in st.notFound {
        HitsSnoc(st.searched, t, search);
        var items := search(Query(t));
        if |items| > 0 {
          DedupSnoc(Hits(st.searched, search), items[0]);
        } else {
          assert Hits(st.searched, search) + [] == Hits(st.searched, search);
        }
      }
    }
  }

  /** The `notFound` Set is the set of keys of the searched tracks whose search came back empty. */
  lemma {:induction false} RunNotFoundIsMisses(ts: seq<Track>, search: string -> seq<string>, target: int)
    ensures Run(ts, search, target).notFound == Misses(Run(ts, search, target).searched, search)
  {
    if ts != [] {
      var prev := ts[..|ts| - 1];
      var t := ts[|ts| - 1];
      RunNotFoundIsMisses(prev, search, target);
      var st := Run(prev, search, target);
      assert Run(ts, search, target) == Step(st, t, search, target);
      if |st.found| < target && TrackKey(t) !in st.notFound {
        MissesSnoc(st.searched, t, search);
      }
    }
  }

  /** `found` never holds more than `target` URIs, and never holds one twice. */
  lemma {:induction false} RunFoundBounded(ts: seq<Track>, search: string -> seq<string>, target: int)
    ensures |Run(ts, search, target).found| <= Max(0, target)
    ensures Distinct(Run(ts, search, target).found)
  {
    if ts != [] {
      var prev := ts[..|ts| - 1];
      RunFoundBounded(prev, search, target);
      var st := Run(prev, search, target);
      var items := search(Query(ts[|ts| - 1]));
      if |items| > 0 {
        AddNewFacts(st.found, items[0]);
      }
    }
  }

  /**
   * Once a key is in `notFound` no later track with that key is searched:
   * two searched tracks with the same key can only both be searched when the
   * earlier search found something.
   */
  lemma {:induction false} RunSearchesAMissOnce(ts: seq<Track>, search: string -> seq<string>, target: int)
    ensures var s := Run(ts, search, target).searched;
      forall i, j :: 0 <= i < j < |s| && TrackKey(s[i]) == TrackKey(s[j]) ==> search(Query(s[i])) != []
  {
    if ts != [] {
      var prev := ts[..|ts| - 1];
      var t := ts[|ts| - 1];
      RunSearchesAMissOnce(prev, search, target);
      RunNotFoundIsMisses(prev, search, target);
      var st := Run(prev, search, target);
      var s := Run(ts, search, target).searched;
      if s != st.searched {
        assert s == st.searched + [t];
        forall i, j | 0 <= i < j < |s| && TrackKey(s[i]) == TrackKey(s[j])
          ensures search(Query(s[i])) != []
        {
          if j == |s| - 1 {
            assert s[i] == st.searched[i];
            assert TrackKey(s[i]) !in Misses(st.searched, search);
          }
        }
      }
    }
  }

  /** Every searched track is a track of the walk. */
  lemma {:induction false} RunSearchesFromFeed(ts: seq<Track>, search: string -> seq<string>, target: int)
    ensures forall t :: t in Run(ts, search, target).searched ==> t in ts
  {
    if ts != [] {
      var prev := ts[..|ts| - 1];
      RunSearchesFromFeed(prev, search, target);
      assert forall t :: t in prev ==> t in ts;
    }
  }

  /** Every URI of `Hits` is the first result of the search of one of the tracks. */
  lemma {:induction false} HitsAreFirstResults(s: seq<Track>, search: string -> seq<string>)
    ensures forall u :: u in Hits(s, search) ==>
      exists t :: t in s && |search(Query(t))| > 0 && search(Query(t))[0] == u
  {
    if s != [] {
      var prev := s[..|s| - 1];
      HitsAreFirstResults(prev, search);
      assert forall t :: t in prev ==> t in s;
      assert s[|s| - 1] in s;
    }
  }

  /** Every URI in `found` is the first search result of some track of the walk. */
  lemma FoundAreFirstResults(ts: seq<Track>, search: string -> seq<string>, target: int)
    ensures forall u :: u in Run(ts, search, target).found ==>
      exists t :: t in ts && |search(Query(t))| > 0 && search(Query(t))[0] == u
  {
    var st := Run(ts, search, target);
    RunFoundIsHits(ts, search, target);
    HitsAreFirstResults(st.searched, search);
    RunSearchesFromFeed(ts, search, target);
    forall u | u in st.found
      ensures exists t :: t in ts && |search(Query(t))| > 0 && search(Query(t))[0] == u
    {
      var k :| 0 <= k < |st.found| && st.found[k] == u;
      assert u in Hits(st.searched, search);
    }
  }

  /** Once `found` is full, walking more tracks changes nothing. */
  lemma {:induction false} RunSaturated(ts: seq<Track>, more: seq<Track>, search: string -> seq<string>, target: int)
    requires |Run(ts, search, target).found| >= target
    ensures Run(ts + more, search, target) == Run(ts, search, target)
  {
    if more != [] {
      var last := more[|more| - 1];
      var init := more[..|more| - 1];
      RunSaturated(ts, init, search, target);
      assert more == init + [last];
      assert ts + more == (ts + init) + [last];
      RunSnoc(ts + init, last, search, target);
    } else {
      assert ts + more == ts;
    }
  }

  /** `found` only grows as the walk goes on. */
  lemma {:induction false} RunGrows(ts: seq<Track>, more: seq<Track>, search: string -> seq<string>, target: int)
    ensures |Run(ts, search, target).found| <= |Run(ts + more, search, target).found|
  {
    if more != [] {
      var last := more[|more| - 1];
      var init := more[..|more| - 1];
      RunGrows(ts, init, search, target);
      assert more == init + [last];
      assert ts + more == (ts + init) + [last];
      RunSnoc(ts + init, last, search, target);
    } else {
      assert ts + more == ts;
    }
  }

  /**
   * How the page loop ends after fetching pages 1 to `n`: every page but
   * the last was non-empty, a page was fetched only while fewer than
   * `target` URIs were found, and the loop stopped at an empty page or once
   * `target` URIs were found. No page at all is fetched when `target <= 0`.
   */
  ghost predicate StopsAfter(pages: seq<seq<Track>>, search: string -> seq<string>, target: int, n: nat)
  {
    && (forall p :: 1 <= p < n ==> Page(pages, p) != [])
    && (n == 0 <==> target <= 0)
    && (n > 0 ==> |Run(Feed(pages, n - 1), search, target).found| < target)
    && (n > 0 ==> Page(pages, n) == [] || |Run(Feed(pages, n), search, target).found| >= target)
  }

  /** The stopping rule determines the number of pages fetched. */
  lemma StopsAfterIsUnique(pages: seq<seq<Track>>, search: string -> seq<string>, target: int, n1: nat, n2: nat)
    requires StopsAfter(pages, search, target, n1) && StopsAfter(pages, search, target, n2)
    ensures n1 == n2
  {
    StopsNoEarlier(pages, search, target, n1, n2);
    StopsNoEarlier(pages, search, target, n2, n1);
  }

  lemma StopsNoEarlier(pages: seq<seq<Track>>, search: string -> seq<string>, target: int, n1: nat, n2: nat)
    requires StopsAfter(pages, search, target, n1) && StopsAfter(pages, search, target, n2)
    ensures n2 <= n1
  {
    if n1 < n2 {
      StoppedLater(pages, search, target, n1, n2);
    }
  }

  /** Stopping after `n` pages means every earlier page was non-empty and left the search short. */
  lemma StoppedLater(pages: seq<seq<Track>>, search: string -> seq<string>, target: int, m: nat, n: nat)
    requires StopsAfter(pages, search, target, n) && 0 < m < n
    ensures Page(pages, m) != [] && |Run(Feed(pages, m), search, target).found| < target
  {
    FeedRunGrows(pages, search, target, m, n - 1);
  }

  /** The number of URIs found after the first `m` pages is at most that after the first `n`. */
  lemma FeedRunGrows(pages: seq<seq<Track>>, search: string -> seq<string>, target: int, m: nat, n: nat)
    requires m <= n
    ensures |Run(Feed(pages, m), search, target).found| <= |Run(Feed(pages, n), search, target).found|
  {
    var short, long := Feed(pages, m), Feed(pages, n);
    FeedIsPrefix(pages, m, n);
    var more := long[|short|..];
    assert short + more == long;
    RunGrows(short, more, search, target);
  }

  /** What `fetchTracks` returns after walking `ts`: the found URIs, sliced to `amount`. */
  lemma ResultFacts(ts: seq<Track>, search: string -> seq<string>, amount: Option<int>)
    ensures var r := SliceTo(Run(ts, search, OrZero(amount)).found, amount);
      && Distinct(r)
      && |r| <= Max(0, OrZero(amount))
      && forall u :: u in r ==> exists t :: t in ts && |search(Query(t))| > 0 && search(Query(t))[0] == u
  {
    var found := Run(ts, search, OrZero(amount)).found;
    var r := SliceTo(found, amount);
    RunFoundBounded(ts, search, OrZero(amount));
    FoundAreFirstResults(ts, search, OrZero(amount));
    forall u | u in r ensures u in found {
      var k :| 0 <= k < |r| && r[k] == u;
      assert found[k] == u;
    }
  }

  /**
   * The state of the page loop of `fetchTracks` before it requests page
   * `page`: every earlier page was non-empty, the Sets are those left by
   * walking pages 1 to `page - 1`, and `found` was still short of the target
   * before the last of them.
   */
  ghost predicate Fetched(pages: seq<seq<Track>>, search: string -> seq<string>, target: int,
                          page: nat, found: seq<string>, notFound: set<string>)
  {
    && 1 <= page <= |pages| + 1
    && (forall p :: 1 <= p < page ==> Page(pages, p) != [])
    && found == Run(Feed(pages, page - 1), search, target).found
    && notFound == Run(Feed(pages, page - 1), search, target).notFound
    && (page > 1 ==> |Run(Feed(pages, page - 2), search, target).found| < target)
  }

  /** Walking a non-empty page while `found` is short of the target moves the loop on by one page. */
  lemma FetchedNext(pages: seq<seq<Track>>, search: string -> seq<string>, target: int, page: nat,
                    found: seq<string>, notFound: set<string>, found': seq<string>, notFound': set<string>)
    requires Fetched(pages, search, target, page, found, notFound)
    requires |found| < target && Page(pages, page) != []
    requires found' == Run(Feed(pages, page - 1) + Page(pages, page), search, target).found
    requires notFound' == Run(Feed(pages, page - 1) + Page(pages, page), search, target).notFound
    ensures Fetched(pages, search, target, page + 1, found', notFound')
  {
  }

  /** Before page 1 is requested nothing has been walked. */
  lemma FetchedStart(pages: seq<seq<Track>>, search: string -> seq<string>, target: int)
    ensures Fetched(pages, search, target, 1, [], {})
  {
  }

  /**
   * The loop leaves at an empty page `page` while still short of the target,
   * or with the target reached after page `page - 1`: either way the
   * stopping rule holds, and the tracks walked are those of the pages fetched.
   */
  lemma FetchedStops(pages: seq<seq<Track>>, search: string -> seq<string>, target: int, page: nat,
                     found: seq<string>, notFound: set<string>)
    requires Fetched(pages, search, target, page, found, notFound)
    requires |found| >= target || Page(pages, page) == []
    ensures var n := if |found| < target then page else page - 1;
      && StopsAfter(pages, search, target, n)
      && found == Run(Feed(pages, n), search, target).found
  {
    if |found| < target {
      FetchedStopsAtEmptyPage(pages, search, target, page, found, notFound);
    } else {
      FetchedStopsAtTarget(pages, search, target, page, found, notFound);
    }
  }

  lemma FetchedStopsAtEmptyPage(pages: seq<seq<Track>>, search: string -> seq<string>, target: int, page: nat,
                                found: seq<string>, notFound: set<string>)
    requires Fetched(pages, search, target, page, found, notFound)
    requires |found| < target && Page(pages, page) == []
    ensures StopsAfter(pages, search, target, page)
    ensures found == Run(Feed(pages, page), search, target).found
  {
    var walked := Feed(pages, page - 1);
    assert walked + [] == walked;
    assert Feed(pages, page) == walked;
  }

  lemma FetchedStopsAtTarget(pages: seq<seq<Track>>, search: string -> seq<string>, target: int, page: nat,
                             found: seq<string>, notFound: set<string>)
    requires Fetched(pages, search, target, page, found, notFound)
    requires |found| >= target
    ensures StopsAfter(pages, search, target, page - 1)
    ensures found == Run(Feed(pages, page - 1), search, target).found
  {
  }

  /**
   * The inner `for` loop of `fetchTracks` over the tracks of one page, given
   * the `found` and `notFound` Sets left by the tracks walked before it.
   */
  method ScanPage(found0: seq<string>, notFound0: set<string>, ghost walked: seq<Track>,
                  data: seq<Track>, search: string -> seq<string>, target: int)
    returns (found: seq<string>, notFound: set<string>)
    requires found0 == Run(walked, search, target).found
    requires notFound0 == Run(walked, search, target).notFound
    ensures found == Run(walked + data, search, target).found
    ensures notFound == Run(walked + data, search, target).notFound
  {
    found, notFound := found0, notFound0;
    ghost var seen := walked;
    ghost var st := Run(seen, search, target);
    var j := 0;
    while j < |data|
      invariant 0 <= j <= |data|
      invariant seen == walked + data[..j]
      invariant st == Run(seen, search, target)
      invariant found == st.found && notFound == st.notFound
    {
      if |found| >= target {
        RunSaturated(seen, data[j..], search, target);
        AppendRest(walked, data, j);
        return;
      }
      var track := data[j];
      var key := TrackKey(track);
      if key !in notFound {
        var result := search(Query(track));
        if |result| > 0 {
          found := AddNew(found, result[0]);
        } else {
          notFound := notFound + {key};
        }
      }
      RunSnoc(seen, track, search, target);
      AppendNext(walked, data, j);
      seen := seen + [track];
      st := Step(st, track, search, target);
      j := j + 1;
    }
    AppendRest(walked, data, |data|);
  }

  /** One turn of the page loop of `fetchTracks`: request page `page` and walk its tracks. */
  method FetchPage(pages: seq<seq<Track>>, search: string -> seq<string>, target: int, page: nat,
                   found0: seq<string>, notFound0: set<string>)
    returns (found: seq<string>, notFound: set<string>)
    requires Fetched(pages, search, target, page, found0, notFound0)
    requires |found0| < target && Page(pages, page) != []
    ensures Fetched(pages, search, target, page + 1, found, notFound)
  {
    found, notFound := ScanPage(found0, notFound0, Feed(pages, page - 1), Page(pages, page), search, target);
    FetchedNext(pages, search, target, page, found0, notFound0, found, notFound);
  }

  /**
   * `fetchTracks(username, type, amount)`. Returns the URIs and the number
   * of station pages requested.
   */
  method FetchTracks(pages: seq<seq<Track>>, search: string -> seq<string>, amount: Option<int>)
    returns (tracks: seq<string>, pagesFetched: nat)
    ensures StopsAfter(pages, search, OrZero(amount), pagesFetched)
    ensures tracks == SliceTo(Run(Feed(pages, pagesFetched), search, OrZero(amount)).found, amount)
  {
    var target := OrZero(amount);
    var found: seq<string> := [];
    var notFound: set<string> := {};
    var page: nat := 1;
    FetchedStart(pages, search, target);
    while |found| < target
      invariant Fetched(pages, search, target, page, found, notFound)
      decreases |pages| + 1 - page
    {
      if Page(pages, page) == [] {
        break;
      }
      found, notFound := FetchPage(pages, search, target, page, found, notFound);
      page := page + 1;
    }
    pagesFetched := if |found| < target then page else page - 1;
    FetchedStops(pages, search, target, page, found, notFound);
    tracks := SliceTo(found, amount);
  }

  /** The name of the generated playlist. */
  function PlaylistName(username: string, kind: string): string
  {
    username + "'s " + kind
  }

  /** The description, stamped with the formatted date and time `now`. */
  function Description(username: string, kind: string, now: string): string
  {
    "A playlist generated from " + username + "'s " + kind + " station on Last.fm on " + now
  }

  /**
   * The playlist part of `create`: reuse the first playlist called `name`,
   * giving it `description`, removing its listed items when it has any and
   * adding `tracks`; or create a playlist with that name and description
   * and add `tracks` to it.
   */
  method Publish(account: Account, name: string, description: string, tracks: seq<string>)
    requires account.Valid()
    modifies account
    ensures account.Valid()
    ensures var ps := old(account.playlists);
      var i := FirstNamed(ps, name);
      i.Some? ==>
        && account.nextId == old(account.nextId)
        && account.playlists == ps[i.value := ps[i.value].(description := description, tracks := tracks)]
    ensures var ps := old(account.playlists);
      FirstNamed(ps, name).None? ==>
        && account.nextId == old(account.nextId) + 1
        && account.playlists == ps + [Playlist(old(account.nextId), name, description, true, tracks)]
  {
    var found := FirstNamed(account.playlists, name);
    if found.Some? {
      Refill(account, found.value, description, tracks);
    } else {
      var playlists := account.playlists;
      var id := account.CreatePlaylist(name, description, None);
      ghost var created := account.playlists;
      account.AddItems(id, tracks);
      UpdateIdLast(playlists, created[|playlists|], (p: Playlist) => p.(tracks := p.tracks + tracks));
      assert [] + tracks == tracks;
    }
  }

  /** The reuse branch of `create` on the playlist at position `i`. */
  method Refill(account: Account, i: nat, description: string, tracks: seq<string>)
    requires account.Valid() && i < |account.playlists|
    modifies account
    ensures account.Valid()
    ensures account.nextId == old(account.nextId)
    ensures var ps := old(account.playlists);
      account.playlists == ps[i := ps[i].(description := description, tracks := tracks)]
  {
    var playlists := account.playlists;
    var id := playlists[i].id;
    account.ChangeDescription(id, description);
    UpdateIdAt(playlists, i, (p: Playlist) => p.(description := description));
    if |playlists[i].tracks| > 0 {
      var items := account.playlists[i].tracks;
      ghost var before := account.playlists;
      account.RemoveItems(id, items);
      UpdateIdAt(before, i, (p: Playlist) => p.(tracks := Without(p.tracks, items)));
      WithoutItselfIsEmpty(items);
    }
    ghost var cleared := account.playlists;
    account.AddItems(id, tracks);
    UpdateIdAt(cleared, i, (p: Playlist) => p.(tracks := p.tracks + tracks));
    assert cleared[i].tracks == [];
    assert [] + tracks == tracks;
  }

  /**
   * `create(username, type, amount)`. The tracks are what `fetchTracks`
   * returns for this station, and the playlist named after the user and the
   * station ends up holding exactly them: an existing one
   * keeps its place, id and visibility and gets the new description, and
   * otherwise a new playlist is added at the end of the listing.
   */
  method Create(account: Account, username: string, kind: string, amount: Option<int>, now: string,
                pages: seq<seq<Track>>, search: string -> seq<string>)
    returns (tracks: seq<string>)
    requires account.Valid()
    modifies account
    ensures account.Valid()
    ensures exists n :: StopsAfter(pages, search, OrZero(amount), n)
                        && tracks == SliceTo(Run(Feed(pages, n), search, OrZero(amount)).found, amount)
    ensures Distinct(tracks) && |tracks| <= Max(0, OrZero(amount))
    ensures var ps := old(account.playlists);
      var i := FirstNamed(ps, PlaylistName(username, kind));
      i.Some? ==>
        && account.nextId == old(account.nextId)
        && account.playlists
           == ps[i.value := ps[i.value].(description := Description(username, kind, now), tracks := tracks)]
    ensures var ps := old(account.playlists);
      var i := FirstNamed(ps, PlaylistName(username, kind));
      i.None? ==>
        && account.nextId == old(account.nextId) + 1
        && account.playlists
           == ps + [Playlist(old(account.nextId), PlaylistName(username, kind),
                             Description(username, kind, now), true, tracks)]
  {
    var pagesFetched;
    tracks, pagesFetched := FetchTracks(pages, search, amount);
    ResultFacts(Feed(pages, pagesFetched), search, amount);
    Publish(account, PlaylistName(username, kind), Description(username, kind, now), tracks);
  }
}
