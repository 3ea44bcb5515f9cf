/**
 * `getPlaylist` (api/lastfm.ts): requests pages 1, 2, ... of a user's
 * Last.fm station and collects the songs in a `Map` keyed by the song URL,
 * until the Map holds `amount` songs, then returns the first `amount`.
 *
 * The station is a finite sequence of pages; every page past them is
 * empty. The `Map` is the sequence of its values in insertion order.
 */
module LastFm {
  import opened Js

  /** A station song: its URL (the Map key), its title and its artists' names. */
  datatype Song = Song(url: string, name: string, artists: seq<string>)

  /**
   * How `getPlaylist` ends: with the songs it returns and the number of
   * pages it requested, or never, when it keeps requesting empty pages
   * past the end of the station without the Map reaching `amount`.
   */
  datatype Listing = Listing(songs: seq<Song>, pagesFetched: nat) | Endless

  /** The keys of the Map, in insertion order. */
  function Urls(ms: seq<Song>): (r: seq<string>)
    ensures |r| == |ms|
    ensures forall i :: 0 <= i < |ms| ==> r[i] == ms[i].url
  {
    seq(|ms|, i requires 0 <= i < |ms| => ms[i].url)
  }

  /**
   * `songs.set(song.url, song)`: a new URL goes to the end, a known one
   * has its value replaced where it stands.
   */
  function Upsert(ms: seq<Song>, s: Song): (r: seq<Song>)
    ensures |ms| <= |r| <= |ms| + 1
  {
    if ms == [] then [s]
    else if ms[0].url == s.url then [s] + ms[1..]
    else [ms[0]] + Upsert(ms[1..], s)
  }

  /** The Map after setting the songs `ss` in order into an empty one. */
  function Collect(ss: seq<Song>): seq<Song>
  {
    if ss == [] then [] else Upsert(Collect(ss[..|ss| - 1]), ss[|ss| - 1])
  }

  /** The last song of `ss` with URL `url`, if any. */
  function LastWith(ss: seq<Song>, url: string): Option<Song>
  {
    if ss == [] then None
    else if ss[|ss| - 1].url == url then Some(ss[|ss| - 1])
    else LastWith(ss[..|ss| - 1], url)
  }

  /** Setting a song changes the key sequence exactly as adding its URL to a `Set` would. */
  lemma {:induction false} UpsertUrls(ms: seq<Song>, s: Song)
    ensures Urls(Upsert(ms, s)) == AddNew(Urls(ms), s.url)
  {
    if ms == [] {
      assert Urls([s]) == [s.url];
    } else {
      UrlsCons(ms[0], ms[1..]);
      assert ms == [ms[0]] + ms[1..];
      if ms[0].url == s.url {
        UrlsCons(s, ms[1..]);
        assert s.url in Urls(ms);
      } else {
        var rest := Upsert(ms[1..], s);
        UpsertUrls(ms[1..], s);
        UrlsCons(ms[0], rest);
        assert s.url in Urls(ms) <==> s.url in Urls(ms[1..]);
      }
    }
  }

  lemma UrlsCons(x: Song, ms: seq<Song>)
    ensures Urls([x] + ms) == [x.url] + Urls(ms)
  {
  }

  /**
   * With distinct keys, setting a song leaves the other entries as they
   * were and makes `s` the value of its URL.
   */
  lemma {:induction false} UpsertValues(ms: seq<Song>, s: Song)
    requires Distinct(Urls(ms))
    ensures forall i :: 0 <= i < |ms| && ms[i].url != s.url ==> Upsert(ms, s)[i] == ms[i]
    ensures forall i :: 0 <= i < |Upsert(ms, s)| && Upsert(ms, s)[i].url == s.url ==> Upsert(ms, s)[i] == s
  {
    UpsertUrls(ms, s);
    if ms != [] && ms[0].url != s.url {
      assert Urls(ms[1..]) == Urls(ms)[1..];
      UpsertValues(ms[1..], s);
    } else if ms != [] {
      forall i | 1 <= i < |ms| ensures ms[i].url != s.url {
        assert Urls(ms)[0] != Urls(ms)[i];
      }
    }
  }

  lemma CollectSnoc(ss: seq<Song>, s: Song)
    ensures Collect(ss + [s]) == Upsert(Collect(ss), s)
  {
    assert (ss + [s])[..|ss|] == ss;
  }

  /** The Map's keys are the URLs of the walked songs, each once, in order of first appearance. */
  lemma {:induction false} CollectUrls(ss: seq<Song>)
    ensures Urls(Collect(ss)) == Dedup(Urls(ss))
  {
    if ss != [] {
      var init := ss[..|ss| - 1];
      CollectUrls(init);
      UpsertUrls(Collect(init), ss[|ss| - 1]);
      assert Urls(ss)[..|ss| - 1] == Urls(init);
    }
  }

  /** Every value in the Map is the last song walked with its URL. */
  lemma {:induction false} CollectKeepsLast(ss: seq<Song>)
    ensures forall i :: 0 <= i < |Collect(ss)| ==> LastWith(ss, Collect(ss)[i].url) == Some(Collect(ss)[i])
  {
    if ss != [] {
      var init, s := ss[..|ss| - 1], ss[|ss| - 1];
      var before := Collect(init);
      CollectKeepsLast(init);
      CollectUrls(init);
      UpsertUrls(before, s);
      UpsertValues(before, s);
      var after := Collect(ss);
      forall i | 0 <= i < |after| ensures LastWith(ss, after[i].url) == Some(after[i]) {
        if after[i].url != s.url {
          assert Urls(after)[i] == after[i].url;
          if i >= |before| {
            assert false;
          }
        }
      }
    }
  }

  /** A song is in the Map exactly when its URL was walked; the Map never holds more songs than were walked. */
  lemma CollectSize(ss: seq<Song>)
    ensures Distinct(Urls(Collect(ss)))
    ensures forall u :: u in Urls(Collect(ss)) <==> u in Urls(ss)
    ensures |Collect(ss)| <= |ss|
  {
    CollectUrls(ss);
  }

  /** Walking more songs never shrinks the Map. */
  lemma {:induction false} CollectGrows(ss: seq<Song>, more: seq<Song>)
    ensures |Collect(ss)| <= |Collect(ss + more)|
  {
    if more != [] {
      var init := more[..|more| - 1];
      CollectGrows(ss, init);
      assert ss + more == (ss + init) + [more[|more| - 1]];
      CollectSnoc(ss + init, more[|more| - 1]);
      UpsertUrls(Collect(ss + init), more[|more| - 1]);
    } else {
      assert ss + more == ss;
    }
  }

  /**
   * How the `do ... while` loop ends after page `n`: the Map holds at least
   * `target` songs then, and held fewer after the page before.
   */
  ghost predicate ExitsAfter(pages: seq<seq<Song>>, target: int, n: nat)
  {
    && n >= 1
    && |Collect(Feed(pages, n))| >= target
    && (n > 1 ==> |Collect(Feed(pages, n - 1))| < target)
  }

  /** The Map after more pages is at least as large. */
  lemma CollectFeedGrows(pages: seq<seq<Song>>, m: nat, n: nat)
    requires m <= n
    ensures |Collect(Feed(pages, m))| <= |Collect(Feed(pages, n))|
  {
    var short, long := Feed(pages, m), Feed(pages, n);
    FeedSplit(pages, m, n);
    CollectGrows(short, long[|short|..]);
  }

  /** The loop exits at the first page after which the Map holds `target` songs. */
  lemma ExitsAtFirst(pages: seq<seq<Song>>, target: int, n: nat)
    requires ExitsAfter(pages, target, n)
    ensures forall p :: 1 <= p < n ==> |Collect(Feed(pages, p))| < target
  {
    forall p | 1 <= p < n ensures |Collect(Feed(pages, p))| < target {
      CollectFeedGrows(pages, p, n - 1);
    }
  }

  /** The exit page is determined by the station and the target. */
  lemma ExitsAfterIsUnique(pages: seq<seq<Song>>, target: int, n1: nat, n2: nat)
    requires ExitsAfter(pages, target, n1) && ExitsAfter(pages, target, n2)
    ensures n1 == n2
  {
    ExitsAtFirst(pages, target, n1);
    ExitsAtFirst(pages, target, n2);
  }

  /** Without `amount` the target is 0, and the loop stops after page 1. */
  lemma OnePageWithoutAmount(pages: seq<seq<Song>>, n: nat)
    requires ExitsAfter(pages, OrZero(None), n)
    ensures n == 1
  {
  }

  /** On exit with a non-negative `amount`, the slice holds exactly `amount` songs. */
  lemma ExactlyAmount(pages: seq<seq<Song>>, amount: int, n: nat)
    requires amount >= 0 && ExitsAfter(pages, amount, n)
    ensures |SliceTo(Collect(Feed(pages, n)), Some(amount))| == amount
  {
  }

  /** Past the last page of the station nothing more arrives. */
  lemma {:induction false} FeedPastEnd<T>(pages: seq<seq<T>>, n: nat)
    requires n >= |pages|
    ensures Feed(pages, n) == Feed(pages, |pages|)
    decreases n
  {
    if n > |pages| {
      FeedPastEnd(pages, n - 1);
      assert Feed(pages, n) == Feed(pages, n - 1) + [];
    }
  }

  /** Walking page `page` after the earlier ones is walking pages 1 to `page`. */
  lemma FeedNext<T>(pages: seq<seq<T>>, page: nat)
    requires page >= 1
    ensures Feed(pages, page - 1) + Page(pages, page) == Feed(pages, page)
  {
  }

  /**
   * The state of the loop before it requests page `page`: the Map holds the
   * songs of pages 1 to `page - 1`, fewer than `target` of them if a page
   * was requested.
   */
  ghost predicate Paged(pages: seq<seq<Song>>, target: int, page: nat, songs: seq<Song>)
  {
    && 1 <= page <= |pages| + 1
    && songs == Collect(Feed(pages, page - 1))
    && (page > 1 ==> |songs| < target)
  }

  /** Past the last page of the station the Map stays as it is. */
  lemma CollectPastEnd(pages: seq<seq<Song>>, page: nat, p: nat)
    requires |pages| <= page <= p
    ensures Collect(Feed(pages, p)) == Collect(Feed(pages, page))
  {
    FeedPastEnd(pages, p);
    FeedPastEnd(pages, page);
  }

  /** Short of the target after the last page of the station, the loop never exits. */
  lemma NeverExits(pages: seq<seq<Song>>, target: int, page: nat)
    requires |Collect(Feed(pages, page))| < target && page >= |pages|
    ensures forall p :: p >= 1 ==> |Collect(Feed(pages, p))| < target
  {
    forall p | p >= 1 ensures |Collect(Feed(pages, p))| < target {
      if p > page {
        CollectPastEnd(pages, page, p);
      } else {
        CollectFeedGrows(pages, p, page);
      }
    }
  }

  /**
   * The inner `for` loop: sets every song of one page into the Map left by
   * the songs walked before.
   */
  method SetAll(songs0: seq<Song>, ghost walked: seq<Song>, playlist: seq<Song>) returns (songs: seq<Song>)
    requires songs0 == Collect(walked)
    ensures songs == Collect(walked + playlist)
  {
    songs := songs0;
    ghost var seen := walked;
    var j := 0;
    AppendRest(walked, playlist, 0);
    while j < |playlist|
      invariant 0 <= j <= |playlist|
      invariant seen == walked + playlist[..j]
      invariant songs == Collect(seen)
    {
      CollectSnoc(seen, playlist[j]);
      AppendNext(walked, playlist, j);
      songs := Upsert(songs, playlist[j]);
      seen := seen + [playlist[j]];
      j := j + 1;
    }
    AppendRest(walked, playlist, j);
  }

  /** `getPlaylist(username, type, amount)` on the station `pages`. */
  method GetPlaylist(pages: seq<seq<Song>>, amount: Option<int>) returns (r: Listing)
    ensures r.Listing? ==> ExitsAfter(pages, OrZero(amount), r.pagesFetched)
    ensures r.Listing? ==> r.songs == SliceTo(Collect(Feed(pages, r.pagesFetched)), amount)
    ensures r.Endless? ==> OrZero(amount) > 0
    ensures r.Endless? ==> forall p :: p >= 1 ==> |Collect(Feed(pages, p))| < OrZero(amount)
  {
    var target := OrZero(amount);
    var songs: seq<Song> := [];
    var page: nat := 1;
    while true
      invariant Paged(pages, target, page, songs)
      decreases |pages| + 1 - page
    {
      var playlist := Page(pages, page);
      var songs' := SetAll(songs, Feed(pages, page - 1), playlist);
      FeedNext(pages, page);
      if |songs'| >= target {
        return Listing(SliceTo(songs', amount), page);
      }
      if page >= |pages| {
        NeverExits(pages, target, page);
        return Endless;
      }
      songs, page := songs', page + 1;
    }
  }
}
