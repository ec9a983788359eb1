/** The list of movie items the command menu shows for the current search
    results: `data` de-duplicated by case-insensitive title (first occurrence
    wins), then every entry without a poster dropped. */
module DisplayList {
  import opened Text
  import opened Optional

  /** One search result: its numeric id, its title and its optional poster path. */
  datatype Movie = Movie(id: nat, title: string, posterPath: Option<string>)

  /** The de-duplication key: the lower-cased title. */
  function Key(m: Movie): string { Lower(m.title) }

  /** A poster path is truthy only when it is present and non-empty. */
  predicate HasPoster(m: Movie) { m.posterPath.Some? && m.posterPath.value != "" }

  /** `findIndex` for the first entry whose key equals `key`; -1 when there is none. */
  function FindIndex(data: seq<Movie>, key: string): (r: int)
    ensures -1 <= r < |data|
    ensures r == -1 <==> forall j :: 0 <= j < |data| ==> Key(data[j]) != key
    ensures r >= 0 ==> Key(data[r]) == key && forall j :: 0 <= j < r ==> Key(data[j]) != key
  {
    if data == [] then -1
    else if Key(data[0]) == key then 0
    else
      var r := FindIndex(data[1..], key);
      if r == -1 then -1 else r + 1
  }

  /** The filter's test for position `i`: the first index with the same key is
      `i` itself (`indexOf` of an entry is its own position). */
  predicate IsFirstOccurrence(data: seq<Movie>, i: nat)
    requires i < |data|
  {
    FindIndex(data, Key(data[i])) == i
  }

  /** Keeps, in order, the entries at positions `k..` that pass the test; the
      test always looks at the whole of `data`. */
  function DedupeFrom(data: seq<Movie>, k: nat): seq<Movie>
    requires k <= |data|
    decreases |data| - k
  {
    if k == |data| then []
    else if IsFirstOccurrence(data, k) then [data[k]] + DedupeFrom(data, k + 1)
    else DedupeFrom(data, k + 1)
  }

  function Dedupe(data: seq<Movie>): seq<Movie> { DedupeFrom(data, 0) }

  /** Drops every entry whose poster path is falsy, keeping the order. */
  function WithPoster(s: seq<Movie>): (r: seq<Movie>)
    ensures |r| <= |s|
    ensures forall k :: 0 <= k < |r| ==> HasPoster(r[k]) && r[k] in s
    ensures forall k :: 0 <= k < |s| && HasPoster(s[k]) ==> s[k] in r
  {
    if s == [] then []
    else if HasPoster(s[0]) then [s[0]] + WithPoster(s[1..])
    else WithPoster(s[1..])
  }

  /** The movie items rendered: de-duplication first, poster filter second. */
  function Displayed(data: seq<Movie>): seq<Movie> { WithPoster(Dedupe(data)) }

  // ---------------------------------------------------------------------------
  // Describing a result by the positions of `data` it keeps

  /** The entries of `s` at the positions `idx`, in the order of `idx`. */
  function Pick(s: seq<Movie>, idx: seq<nat>): (r: seq<Movie>)
    requires forall t :: 0 <= t < |idx| ==> idx[t] < |s|
    ensures |r| == |idx|
    ensures forall t :: 0 <= t < |idx| ==> r[t] == s[idx[t]]
  {
    if idx == [] then [] else [s[idx[0]]] + Pick(s, idx[1..])
  }

  ghost predicate Increasing(idx: seq<nat>)
  {
    forall a, b :: 0 <= a < b < |idx| ==> idx[a] < idx[b]
  }

  /** `sub` is an order-preserving selection of entries of `s`. */
  ghost predicate IsSubsequence(sub: seq<Movie>, s: seq<Movie>)
  {
    exists idx: seq<nat> ::
      Increasing(idx) && (forall t :: 0 <= t < |idx| ==> idx[t] < |s|) && Pick(s, idx) == sub
  }

  /** No two entries share a lower-cased title. */
  ghost predicate DistinctTitles(s: seq<Movie>)
  {
    forall a, b :: 0 <= a < b < |s| ==> Key(s[a]) != Key(s[b])
  }

  /** The positions `k..` at which `mask` holds, in increasing order. */
  function Positions(mask: seq<bool>, k: nat): (r: seq<nat>)
    requires k <= |mask|
    ensures forall t :: 0 <= t < |r| ==> k <= r[t] < |mask| && mask[r[t]]
    ensures forall a, b :: 0 <= a < b < |r| ==> r[a] < r[b]
    ensures forall i :: k <= i < |mask| && mask[i] ==> i in r
    decreases |mask| - k
  {
    if k == |mask| then []
    else if mask[k] then [k] + Positions(mask, k + 1)
    else Positions(mask, k + 1)
  }

  /** For each position, whether it survives de-duplication. */
  function FirstMask(data: seq<Movie>): (m: seq<bool>)
    ensures |m| == |data|
  {
    seq(|data|, i requires 0 <= i < |data| => IsFirstOccurrence(data, i))
  }

  /** Reference definition of the rendered positions in one pass: the first
      occurrence of its title AND a poster. */
  function ShownMask(data: seq<Movie>): (m: seq<bool>)
    ensures |m| == |data|
  {
    seq(|data|, i requires 0 <= i < |data| => IsFirstOccurrence(data, i) && HasPoster(data[i]))
  }

  // ---------------------------------------------------------------------------
  // Properties

  /** First occurrence wins: position `i` passes the de-duplication test exactly
      when no earlier position has the same lower-cased title. */
  lemma FirstOccurrenceWins(data: seq<Movie>, i: nat)
    requires i < |data|
    ensures IsFirstOccurrence(data, i) <==> forall j :: 0 <= j < i ==> Key(data[j]) != Key(data[i])
  {
  }

  /** The de-duplicated list is exactly the entries at the surviving
      positions, in their original order. */
  lemma {:induction false} DedupeFromIsPick(data: seq<Movie>, k: nat)
    requires k <= |data|
    ensures DedupeFrom(data, k) == Pick(data, Positions(FirstMask(data), k))
    decreases |data| - k
  {
    if k < |data| {
      DedupeFromIsPick(data, k + 1);
      var rest := Positions(FirstMask(data), k + 1);
      if IsFirstOccurrence(data, k) {
        assert ([k] + rest)[1..] == rest;
      }
    }
  }

  /** First occurrence wins, read on the surviving positions: position `i` is
      among them exactly when no earlier position has the same lower-cased title. */
  lemma DedupeKeepsPosition(data: seq<Movie>, i: nat)
    requires i < |data|
    ensures i in Positions(FirstMask(data), 0) <==>
      forall j :: 0 <= j < i ==> Key(data[j]) != Key(data[i])
  {
    FirstOccurrenceWins(data, i);
    assert FirstMask(data)[i] == IsFirstOccurrence(data, i);
  }

  lemma {:induction false} WithPosterAppendOne(m: Movie, s: seq<Movie>)
    ensures WithPoster([m] + s) == (if HasPoster(m) then [m] else []) + WithPoster(s)
  {
    assert ([m] + s)[0] == m;
    assert ([m] + s)[1..] == s;
  }

  /** The two-stage pipeline agrees with the one-pass reference definition: the
      rendered list is the entries at the positions that are the first
      occurrence of their title and have a poster, in their original order. */
  lemma {:induction false} DisplayedFromIsPick(data: seq<Movie>, k: nat)
    requires k <= |data|
    ensures WithPoster(DedupeFrom(data, k)) == Pick(data, Positions(ShownMask(data), k))
    decreases |data| - k
  {
    if k < |data| {
      DisplayedFromIsPick(data, k + 1);
      var rest := Positions(ShownMask(data), k + 1);
      if IsFirstOccurrence(data, k) {
        WithPosterAppendOne(data[k], DedupeFrom(data, k + 1));
        if HasPoster(data[k]) {
          assert ([k] + rest)[1..] == rest;
        }
      }
    }
  }

  /** Membership in the one-pass reference: position `i` is rendered exactly
      when no earlier position has the same lower-cased title and `i` has a poster. */
  lemma DisplayedKeepsPosition(data: seq<Movie>, i: nat)
    requires i < |data|
    ensures i in Positions(ShownMask(data), 0) <==>
      (forall j :: 0 <= j < i ==> Key(data[j]) != Key(data[i])) && HasPoster(data[i])
  {
    FirstOccurrenceWins(data, i);
    assert ShownMask(data)[i] == (IsFirstOccurrence(data, i) && HasPoster(data[i]));
  }

  /** Two distinct first-occurrence positions carry different keys. */
  lemma PickOfFirstsHasDistinctTitles(data: seq<Movie>, idx: seq<nat>)
    requires Increasing(idx)
    requires forall t :: 0 <= t < |idx| ==> idx[t] < |data| && IsFirstOccurrence(data, idx[t])
    ensures DistinctTitles(Pick(data, idx))
  {
    var r := Pick(data, idx);
    forall a, b | 0 <= a < b < |r|
      ensures Key(r[a]) != Key(r[b])
    {
      assert idx[a] < idx[b];
    }
  }

  /** Every rendered movie has a present, non-empty poster path. */
  lemma DisplayedHavePosters(data: seq<Movie>)
    ensures forall k :: 0 <= k < |Displayed(data)| ==>
      Displayed(data)[k].posterPath.Some? && Displayed(data)[k].posterPath.value != ""
  {
  }

  /** No two rendered movies have the same lower-cased title. */
  lemma DisplayedDistinctTitles(data: seq<Movie>)
    ensures DistinctTitles(Displayed(data))
  {
    DisplayedFromIsPick(data, 0);
    PickOfFirstsHasDistinctTitles(data, Positions(ShownMask(data), 0));
  }

  lemma DedupeDistinctTitles(data: seq<Movie>)
    ensures DistinctTitles(Dedupe(data))
  {
    DedupeFromIsPick(data, 0);
    PickOfFirstsHasDistinctTitles(data, Positions(FirstMask(data), 0));
  }

  /** The rendered list is an order-preserving selection from `data`. */
  lemma DisplayedIsSubsequence(data: seq<Movie>)
    ensures IsSubsequence(Displayed(data), data)
  {
    DisplayedFromIsPick(data, 0);
    var idx := Positions(ShownMask(data), 0);
    assert Increasing(idx) && Pick(data, idx) == Displayed(data);
  }

  /** De-duplication runs before the poster filter: when the first entry with a
      given title has no poster, no entry with that title is rendered, even a
      later one that does have a poster. */
  lemma PosterlessFirstHidesTitle(data: seq<Movie>, i: nat)
    requires i < |data| && IsFirstOccurrence(data, i) && !HasPoster(data[i])
    ensures forall k :: 0 <= k < |Displayed(data)| ==> Key(Displayed(data)[k]) != Key(data[i])
  {
    DisplayedFromIsPick(data, 0);
    var idx := Positions(ShownMask(data), 0);
    forall k | 0 <= k < |Displayed(data)|
      ensures Key(Displayed(data)[k]) != Key(data[i])
    {
      assert Displayed(data)[k] == data[idx[k]];
    }
  }

  /** A concrete instance of the ordering: filtering posters first would show
      the later "DUNE"; the menu as written shows nothing. */
  lemma OrderMatters()
    ensures var data := [Movie(1, "Dune", None), Movie(2, "DUNE", Some("/dune.jpg"))];
      Displayed(data) == [] && Dedupe(WithPoster(data)) == [data[1]]
  {
    var data := [Movie(1, "Dune", None), Movie(2, "DUNE", Some("/dune.jpg"))];
    assert Key(data[0]) == Key(data[1]) == "dune";
    assert IsFirstOccurrence(data, 0);
    assert !IsFirstOccurrence(data, 1);
    assert Dedupe(data) == [data[0]];
    assert WithPoster(data) == [data[1]];
    var w := [data[1]];
    assert IsFirstOccurrence(w, 0);
  }

  lemma {:induction false} DedupeFromOfDistinct(s: seq<Movie>, k: nat)
    requires DistinctTitles(s) && k <= |s|
    ensures DedupeFrom(s, k) == s[k..]
    decreases |s| - k
  {
    if k < |s| {
      DedupeFromOfDistinct(s, k + 1);
      FirstOccurrenceWins(s, k);
      assert s[k..] == [s[k]] + s[k + 1..];
    }
  }

  /** A list whose titles are already distinct is left as it is. */
  lemma DedupeOfDistinct(s: seq<Movie>)
    requires DistinctTitles(s)
    ensures Dedupe(s) == s
  {
    DedupeFromOfDistinct(s, 0);
  }

  /** De-duplication is idempotent. */
  lemma DedupeIdempotent(data: seq<Movie>)
    ensures Dedupe(Dedupe(data)) == Dedupe(data)
  {
    DedupeDistinctTitles(data);
    DedupeOfDistinct(Dedupe(data));
  }

  lemma {:induction false} WithPosterOfPostered(s: seq<Movie>)
    requires forall k :: 0 <= k < |s| ==> HasPoster(s[k])
    ensures WithPoster(s) == s
  {
    if s != [] {
      WithPosterOfPostered(s[1..]);
    }
  }

  /** Rendering the rendered list again changes nothing. */
  lemma DisplayedIdempotent(data: seq<Movie>)
    ensures Displayed(Displayed(data)) == Displayed(data)
  {
    var d := Displayed(data);
    DisplayedDistinctTitles(data);
    DedupeOfDistinct(d);
    WithPosterOfPostered(d);
  }
}
