/**
  The match repository: an index from fingerprint to the set of songs that
  contain it, filled by `store` and queried by `find_matches`, which counts
  for every song how many of the query's fingerprints it was indexed under.

  The Redis server is an in-memory map owned by the helper object; a
  failure of the server or of the connection is a nondeterministic error
  outcome of each call.
*/
module Repository {
  import opened Results

  /** A transport or storage failure reported by the backing store. */
  datatype RepositoryError = RedisError

  /** Title and author of a song, in one string. */
  type SongId = string

  /** The stored associations: fingerprint key to its set of songs. */
  type Index = map<nat, set<SongId>>

  /** Votes per song for one query. */
  type Tally = map<SongId, nat>

  // ---------------------------------------------------------------------
  // Index updates
  // ---------------------------------------------------------------------

  /** `SMEMBERS key`: the songs under a fingerprint; a missing key reads as the empty set. */
  function Members(idx: Index, key: nat): set<SongId>
  {
    if key in idx then idx[key] else {}
  }

  /** `SADD key song`: the key is created when absent, and a song already present is not added twice. */
  function SAdd(idx: Index, key: nat, song: SongId): Index
  {
    idx[key := Members(idx, key) + {song}]
  }

  /** The index after the queued `SADD`s of one `store` call ran in order. */
  function StoreAll(idx: Index, fingerprints: seq<nat>, song: SongId): Index
    decreases |fingerprints|
  {
    if fingerprints == [] then idx
    else
      var last := |fingerprints| - 1;
      SAdd(StoreAll(idx, fingerprints[..last], song), fingerprints[last], song)
  }

  /**
    Storing a song under a list of fingerprints puts the song in the set of
    every listed key, creating the keys that were absent, and changes no
    other key.
  */
  lemma {:induction false} StoreAllSpec(idx: Index, fingerprints: seq<nat>, song: SongId)
    ensures StoreAll(idx, fingerprints, song).Keys == idx.Keys + (set k | k in fingerprints)
    ensures forall k :: (Members(StoreAll(idx, fingerprints, song), k)
      == Members(idx, k) + (if k in fingerprints then {song} else {}))
    decreases |fingerprints|
  {
    if fingerprints != [] {
      var last := |fingerprints| - 1;
      var prefix := fingerprints[..last];
      StoreAllSpec(idx, prefix, song);
      assert fingerprints == prefix + [fingerprints[last]];
      assert forall k :: k in fingerprints <==> k in prefix || k == fingerprints[last];
    }
  }

  /** Storing the same song under the same fingerprints again leaves the index as it was. */
  lemma StoreIdempotent(idx: Index, fingerprints: seq<nat>, song: SongId)
    ensures StoreAll(StoreAll(idx, fingerprints, song), fingerprints, song)
         == StoreAll(idx, fingerprints, song)
  {
    var once := StoreAll(idx, fingerprints, song);
    var twice := StoreAll(once, fingerprints, song);
    StoreAllSpec(idx, fingerprints, song);
    StoreAllSpec(once, fingerprints, song);
    forall k | k in twice ensures k in once && twice[k] == once[k] {
      assert Members(twice, k) == Members(once, k);
    }
  }

  // ---------------------------------------------------------------------
  // Vote counting
  // ---------------------------------------------------------------------

  /** The votes a song has in a tally; a song missing from the map has none. */
  function Votes(t: Tally, song: SongId): nat
  {
    if song in t then t[song] else 0
  }

  /** One more vote for every song of a fingerprint's set. */
  function AddVotes(t: Tally, songs: set<SongId>): Tally
  {
    map s | s in t.Keys + songs :: Votes(t, s) + (if s in songs then 1 else 0)
  }

  /** The tally `find_matches` builds for a query, fingerprint by fingerprint. */
  function TallyOf(idx: Index, query: seq<nat>): Tally
    decreases |query|
  {
    if query == [] then map[]
    else
      var last := |query| - 1;
      AddVotes(TallyOf(idx, query[..last]), Members(idx, query[last]))
  }

  /** The positions of the query whose fingerprint holds the song (duplicates are separate positions). */
  function MatchPositions(idx: Index, query: seq<nat>, song: SongId): set<int>
  {
    set j | 0 <= j < |query| && song in Members(idx, query[j])
  }

  /** The votes of a song after one more fingerprint set was counted. */
  lemma VotesAdded(t: Tally, songs: set<SongId>, song: SongId)
    ensures Votes(AddVotes(t, songs), song) == Votes(t, song) + (if song in songs then 1 else 0)
    ensures song in AddVotes(t, songs) <==> song in t || song in songs
  {
  }

  /** One more query position adds that position to the song's matches exactly when its set holds the song. */
  lemma MatchPositionsSnoc(idx: Index, query: seq<nat>, song: SongId)
    requires query != []
    ensures var last := |query| - 1;
      MatchPositions(idx, query, song)
      == MatchPositions(idx, query[..last], song)
         + (if song in Members(idx, query[last]) then {last} else {})
  {
    var last := |query| - 1;
    var prefix := query[..last];
    assert forall j :: 0 <= j < last ==> query[j] == prefix[j];
  }

  /**
    A song's count is the number of query positions whose fingerprint set
    holds it; a song under none of them is absent, so every song present
    has at least one vote.
  */
  lemma {:induction false} TallyCountsMatches(idx: Index, query: seq<nat>, song: SongId)
    ensures Votes(TallyOf(idx, query), song) == |MatchPositions(idx, query, song)|
    ensures song in TallyOf(idx, query) <==> |MatchPositions(idx, query, song)| > 0
    ensures song in TallyOf(idx, query) ==> TallyOf(idx, query)[song] >= 1
    decreases |query|
  {
    if query != [] {
      var last := |query| - 1;
      var prefix := query[..last];
      TallyCountsMatches(idx, prefix, song);
      VotesAdded(TallyOf(idx, prefix), Members(idx, query[last]), song);
      MatchPositionsSnoc(idx, query, song);
      assert last !in MatchPositions(idx, prefix, song);
    }
  }

  /** Adding the song of one more member of the set to the votes, one song at a time. */
  lemma AddVotesStep(t: Tally, done: set<SongId>, song: SongId)
    requires song !in done
    ensures AddVotes(t, done + {song})
         == AddVotes(t, done)[song := Votes(AddVotes(t, done), song) + 1]
  {
  }

  /**
    The inner loop's step: with the tally m counted over the songs already
    seen, counting one more song of the set is the `get_mut`/`insert` update.
  */
  lemma CountSong(t: Tally, songs: set<SongId>, rest: set<SongId>, song: SongId, m: Tally)
    requires rest <= songs && song in rest && m == AddVotes(t, songs - rest)
    ensures rest - {song} <= songs
    ensures AddVotes(t, songs - (rest - {song}))
         == if song in m then m[song := m[song] + 1] else m[song := 1]
  {
    assert songs - (rest - {song}) == (songs - rest) + {song};
    AddVotesStep(t, songs - rest, song);
  }

  /** The outer loop's step: the tally of one more query position. */
  lemma TallyOfGrows(idx: Index, query: seq<nat>, i: nat)
    requires i < |query|
    ensures TallyOf(idx, query[..i + 1]) == AddVotes(TallyOf(idx, query[..i]), Members(idx, query[i]))
  {
    assert query[..i + 1][..i] == query[..i];
  }

  // Sum of all votes in a tally.

  ghost function SomeSong(t: Tally): SongId
    requires t != map[]
  {
    var s :| s in t; s
  }

  ghost function SumVotes(t: Tally): nat
    decreases |t|
  {
    if t == map[] then 0
    else
      var s := SomeSong(t);
      assert (t - {s}).Keys == t.Keys - {s};
      t[s] + SumVotes(t - {s})
  }

  /** The sum does not depend on which song is taken out first. */
  lemma {:induction false} SumVotesRemove(t: Tally, song: SongId)
    requires song in t
    ensures SumVotes(t) == t[song] + SumVotes(t - {song})
    decreases |t|
  {
    var s := SomeSong(t);
    assert (t - {s}).Keys == t.Keys - {s};
    if s != song {
      SumVotesRemove(t - {s}, song);
      assert (t - {song}).Keys == t.Keys - {song};
      SumVotesRemove(t - {song}, s);
      assert t - {s} - {song} == t - {song} - {s};
    }
  }

  /** One more vote for one song adds one to the sum. */
  lemma SumVotesIncrement(t: Tally, song: SongId)
    ensures SumVotes(t[song := Votes(t, song) + 1]) == SumVotes(t) + 1
  {
    var t' := t[song := Votes(t, song) + 1];
    SumVotesRemove(t', song);
    if song in t {
      SumVotesRemove(t, song);
      assert t' - {song} == t - {song};
    } else {
      assert t' - {song} == t;
    }
  }

  /** An empty set of songs leaves the tally as it was. */
  lemma AddVotesNone(t: Tally)
    ensures AddVotes(t, {}) == t
  {
  }

  /** A fingerprint whose set has n songs adds n to the sum of the votes. */
  lemma {:induction false} SumVotesAdd(t: Tally, songs: set<SongId>)
    ensures SumVotes(AddVotes(t, songs)) == SumVotes(t) + |songs|
    decreases |songs|
  {
    if songs == {} {
      AddVotesNone(t);
    } else {
      var s :| s in songs;
      var rest := songs - {s};
      SumVotesAdd(t, rest);
      SumVotesAddOne(t, rest, s);
      assert rest + {s} == songs;
    }
  }

  /** The induction step of SumVotesAdd: one more song in the set is one more vote. */
  lemma SumVotesAddOne(t: Tally, rest: set<SongId>, s: SongId)
    requires s !in rest
    ensures SumVotes(AddVotes(t, rest + {s})) == SumVotes(AddVotes(t, rest)) + 1
  {
    var m := AddVotes(t, rest);
    var m' := m[s := Votes(m, s) + 1];
    assert AddVotes(t, rest + {s}) == m' by {
      AddVotesStep(t, rest, s);
    }
    SumVotesIncrement(m, s);
  }

  /** The sum of the sizes of the query's fingerprint sets. */
  function SetSizes(idx: Index, query: seq<nat>): nat
    decreases |query|
  {
    if query == [] then 0
    else SetSizes(idx, query[..|query| - 1]) + |Members(idx, query[|query| - 1])|
  }

  /** Every member of every queried set is one vote: the votes add up to the set sizes. */
  lemma {:induction false} TallySum(idx: Index, query: seq<nat>)
    ensures SumVotes(TallyOf(idx, query)) == SetSizes(idx, query)
    decreases |query|
  {
    if query != [] {
      var last := |query| - 1;
      TallySum(idx, query[..last]);
      SumVotesAdd(TallyOf(idx, query[..last]), Members(idx, query[last]));
    }
  }

  // ---------------------------------------------------------------------
  // The repository
  // ---------------------------------------------------------------------

  /** `RedisHelper`: the `Repository` implementation over one Redis connection. */
  class RedisHelper {
    /** The key-value contents of the Redis server. */
    var index: Index

    /** A helper connected to a server holding `contents`. */
    constructor (contents: Index)
      ensures index == contents
    {
      index := contents;
    }

    /**
      `store`: queue one `SADD fingerprint song` per fingerprint and run
      them as one transaction; either all of them take effect and the call
      succeeds, or none does and the error is returned.
    */
    method Store(fingerprints: seq<nat>, song: SongId) returns (r: Outcome<RepositoryError>)
      modifies this
      ensures r.Pass? ==> index == StoreAll(old(index), fingerprints, song)
      ensures r.Fail? ==> index == old(index)
    {
      var pending := index;
      for i := 0 to |fingerprints|
        invariant pending == StoreAll(index, fingerprints[..i], song)
      {
        assert fingerprints[..i + 1][..i] == fingerprints[..i];
        pending := SAdd(pending, fingerprints[i], song);
      }
      assert fingerprints[..|fingerprints|] == fingerprints;
      var failed: bool :| true;
      if failed {
        return Fail(RedisError);
      }
      index := pending;
      return Pass;
    }

    /**
      `find_matches`: read the set of every query fingerprint in turn and
      give each song in it one more vote; a failed read abandons the tally
      and returns the error. The index is not changed.
    */
    method FindMatches(fingerprints: seq<nat>) returns (r: Result<Tally, RepositoryError>)
      ensures r.Ok? ==> r.value == TallyOf(index, fingerprints)
    {
      var matches: Tally := map[];
      for i := 0 to |fingerprints|
        invariant matches == TallyOf(index, fingerprints[..i])
      {
        var failed: bool :| true;
        if failed {
          return Err(RedisError);
        }
        var songs := Members(index, fingerprints[i]);
        ghost var before := matches;
        var rest := songs;
        while rest != {}
          invariant rest <= songs
          invariant matches == AddVotes(before, songs - rest)
          decreases rest
        {
          var song :| song in rest;
          CountSong(before, songs, rest, song, matches);
          if song in matches {
            matches := matches[song := matches[song] + 1];
          } else {
            matches := matches[song := 1];
          }
          rest := rest - {song};
        }
        assert songs - rest == songs;
        TallyOfGrows(index, fingerprints, i);
      }
      assert fingerprints[..|fingerprints|] == fingerprints;
      return Ok(matches);
    }
  }

  // ---------------------------------------------------------------------
  // Consequences and the tests' scenarios
  // ---------------------------------------------------------------------

  /** The positions 0, 1, ..., n - 1 of a query of length n. */
  function Positions(n: nat): (ps: set<int>)
    ensures forall j :: j in ps <==> 0 <= j < n
    ensures |ps| == n
  {
    if n == 0 then {} else Positions(n - 1) + {n - 1}
  }

  /** Storing a song under some fingerprints and querying them gives the song one vote per query position. */
  lemma StoreThenFind(idx: Index, fingerprints: seq<nat>, song: SongId)
    ensures Votes(TallyOf(StoreAll(idx, fingerprints, song), fingerprints), song) == |fingerprints|
  {
    var stored := StoreAll(idx, fingerprints, song);
    StoreAllSpec(idx, fingerprints, song);
    TallyCountsMatches(stored, fingerprints, song);
    assert MatchPositions(stored, fingerprints, song) == Positions(|fingerprints|);
  }

  const Song1: SongId := "Shrek and Donkey - Pinocchio is laying again"
  const Song2: SongId := "Alice in Wonderland - Poker face"

  /** The fingerprints 0, 1, ..., n - 1. */
  function Range(n: nat): (s: seq<nat>)
    ensures |s| == n && forall j :: 0 <= j < n ==> s[j] == j
  {
    seq(n, j requires 0 <= j => j)
  }

  /**
    Two songs stored one after the other, into an index that holds neither:
    querying the second song's fingerprints matches the second song at
    every position and the first song where the key is one of its own.
  */
  lemma TwoSongsMatches(idx0: Index, f1: seq<nat>, f2: seq<nat>, s1: SongId, s2: SongId)
    requires s1 != s2
    requires forall k :: s1 !in Members(idx0, k)
    ensures var idx := StoreAll(StoreAll(idx0, f1, s1), f2, s2);
      && MatchPositions(idx, f2, s1) == (set j | 0 <= j < |f2| && f2[j] in f1)
      && MatchPositions(idx, f2, s2) == Positions(|f2|)
  {
    var first := StoreAll(idx0, f1, s1);
    var idx := StoreAll(first, f2, s2);
    StoreAllSpec(idx0, f1, s1);
    StoreAllSpec(first, f2, s2);
    forall j | 0 <= j < |f2|
      ensures (s1 in Members(idx, f2[j]) <==> f2[j] in f1) && s2 in Members(idx, f2[j])
    {
      assert Members(first, f2[j]) == Members(idx0, f2[j]) + (if f2[j] in f1 then {s1} else {});
    }
  }

  /**
    The count both tests check: with the second song stored under all of
    its query keys and the first under `shared` of them, the tally gives
    them `shared` and the number of keys.
  */
  lemma TwoSongsTally(idx0: Index, f1: seq<nat>, f2: seq<nat>, s1: SongId, s2: SongId, shared: nat)
    requires s1 != s2
    requires forall k :: s1 !in Members(idx0, k)
    requires |set j | 0 <= j < |f2| && f2[j] in f1| == shared
    ensures var t := TallyOf(StoreAll(StoreAll(idx0, f1, s1), f2, s2), f2);
      && Votes(t, s1) == shared && (s1 in t <==> shared > 0)
      && Votes(t, s2) == |f2| && (s2 in t <==> |f2| > 0)
  {
    var idx := StoreAll(StoreAll(idx0, f1, s1), f2, s2);
    TwoSongsMatches(idx0, f1, f2, s1, s2);
    TallyCountsMatches(idx, f2, s1);
    TallyCountsMatches(idx, f2, s2);
  }

  /**
    The benchmark's scenario: keys 0..n1 stored under one song and 0..n2
    under another, with 0 < n1 <= n2; querying 0..n2 gives them n1 and n2 votes.
  */
  lemma RangesScenario(n1: nat, n2: nat)
    requires 0 < n1 <= n2
    ensures var idx := StoreAll(StoreAll(map[], Range(n1), Song1), Range(n2), Song2);
      && Song1 in TallyOf(idx, Range(n2)) && TallyOf(idx, Range(n2))[Song1] == n1
      && Song2 in TallyOf(idx, Range(n2)) && TallyOf(idx, Range(n2))[Song2] == n2
  {
    assert |set j | 0 <= j < n2 && Range(n2)[j] in Range(n1)| == n1 by {
      forall j | 0 <= j < n2 ensures Range(n2)[j] in Range(n1) <==> j < n1 {
        if j < n1 {
          assert Range(n1)[j] == j;
        }
      }
      assert (set j | 0 <= j < n2 && Range(n2)[j] in Range(n1)) == Positions(n1);
    }
    TwoSongsTally(map[], Range(n1), Range(n2), Song1, Song2, n1);
  }

  /** The benchmark test's sizes: 20000 and 30000 keys. */
  lemma BenchmarkScenario()
    ensures var idx := StoreAll(StoreAll(map[], Range(20000), Song1), Range(30000), Song2);
      && Song1 in TallyOf(idx, Range(30000)) && TallyOf(idx, Range(30000))[Song1] == 20000
      && Song2 in TallyOf(idx, Range(30000)) && TallyOf(idx, Range(30000))[Song2] == 30000
  {
    RangesScenario(20000, 30000);
  }

  const Fingerprints1: seq<nat> := [
    1234567890, 1987654321, 1290347856, 1111111111, 2222222222, 3333333333, 4444444444,
    5555555555, 6666666666, 7777777777]
  const Fingerprints2: seq<nat> := [
    1231231234, 9999999999, 8888888888, 1111111111, 2222222222, 3333333333, 4444444444,
    5555555555, 6666666666, 7777777777]

  /** Seven of the ten keys of the second test song are keys of the first. */
  lemma SharedKeys(f1: seq<nat>, f2: seq<nat>)
    requires f1 == Fingerprints1 && f2 == Fingerprints2
    ensures (set j | 0 <= j < |f2| && f2[j] in f1) == {3, 4, 5, 6, 7, 8, 9}
    ensures |f2| == 10
  {
    forall j | 3 <= j < 10 ensures f2[j] in f1 {
      assert f2[j] == f1[j];
    }
    assert f2[0] !in f1 && f2[1] !in f1 && f2[2] !in f1;
  }

  /**
    The repository test: two songs of ten fingerprints sharing seven keys;
    querying the second song's fingerprints gives the first song 7 votes
    and the second 10.
  */
  lemma SharedKeysScenario()
    ensures var idx := StoreAll(StoreAll(map[], Fingerprints1, Song1), Fingerprints2, Song2);
      && Song1 in TallyOf(idx, Fingerprints2) && TallyOf(idx, Fingerprints2)[Song1] == 7
      && Song2 in TallyOf(idx, Fingerprints2) && TallyOf(idx, Fingerprints2)[Song2] == 10
  {
    SharedKeys(Fingerprints1, Fingerprints2);
    assert |{3, 4, 5, 6, 7, 8, 9}| == 7 by {
      assert {3, 4, 5, 6, 7, 8, 9} == Positions(10) - Positions(3);
    }
    TwoSongsTally(map[], Fingerprints1, Fingerprints2, Song1, Song2, 7);
  }
}
