/** Which added bullets of a diff are new: moved ones are paired with their removal, rewritten ones are set off per hunk. */
module ChangelogPairing {
  import opened Collections
  import opened ChangelogText

  type Hunk = (string, int)

  // The path of a bullet and its trimmed text.
  type Key = (string, string)

  datatype Candidate = Candidate(path: string, lineNumber: int, text: string, hunk: Hunk)

  datatype Removal = Removal(path: string, text: string, hunk: Hunk)

  function KeyC(c: Candidate): Key {
    (c.path, Trim(c.text))
  }

  function KeyR(r: Removal): Key {
    (r.path, Trim(r.text))
  }

  // ----- who is paired -----

  /** How many of the first `n` added bullets have this key. */
  function CountC(cs: seq<Candidate>, key: Key, n: nat): nat
    requires n <= |cs|
  {
    if n == 0 then 0 else CountC(cs, key, n - 1) + if KeyC(cs[n - 1]) == key then 1 else 0
  }

  /** The removed bullets with this key among the first `n`, in order. */
  function Indices(rs: seq<Removal>, key: Key, n: nat): (list: seq<nat>)
    requires n <= |rs|
    ensures forall m :: 0 <= m < |list| ==> list[m] < n && KeyR(rs[list[m]]) == key
  {
    if n == 0 then [] else Indices(rs, key, n - 1) + if KeyR(rs[n - 1]) == key then [n - 1] else []
  }

  function CountR(rs: seq<Removal>, key: Key, n: nat): nat
    requires n <= |rs|
  {
    |Indices(rs, key, n)|
  }

  /** The k-th added bullet of a text goes with the k-th removed one, as long as there is one. */
  predicate PairsC(cs: seq<Candidate>, rs: seq<Removal>, i: nat)
    requires i < |cs|
  {
    CountC(cs, KeyC(cs[i]), i) < CountR(rs, KeyC(cs[i]), |rs|)
  }

  predicate PairsR(cs: seq<Candidate>, rs: seq<Removal>, j: nat)
    requires j < |rs|
  {
    CountR(rs, KeyR(rs[j]), j) < CountC(cs, KeyR(rs[j]), |cs|)
  }

  function FlagsC(cs: seq<Candidate>, rs: seq<Removal>): (flags: seq<bool>)
    ensures |flags| == |cs| && forall i :: 0 <= i < |cs| ==> flags[i] == PairsC(cs, rs, i)
  {
    seq(|cs|, i requires 0 <= i < |cs| => PairsC(cs, rs, i))
  }

  function FlagsR(cs: seq<Candidate>, rs: seq<Removal>): (flags: seq<bool>)
    ensures |flags| == |rs| && forall j :: 0 <= j < |rs| ==> flags[j] == PairsR(cs, rs, j)
  {
    seq(|rs|, j requires 0 <= j < |rs| => PairsR(cs, rs, j))
  }

  lemma {:induction false} IndicesPrefix(rs: seq<Removal>, key: Key, n: nat, m: nat)
    requires n <= m <= |rs|
    ensures Indices(rs, key, n) <= Indices(rs, key, m)
    decreases m
  {
    if n < m {
      IndicesPrefix(rs, key, n, m - 1);
    }
  }

  /** A removed bullet stands in the list of its key, behind those before it. */
  lemma {:induction false} IndexOf(rs: seq<Removal>, j: nat, n: nat)
    requires j < n <= |rs|
    ensures var key := KeyR(rs[j]); CountR(rs, key, j) < CountR(rs, key, n) && Indices(rs, key, n)[CountR(rs, key, j)] == j
  {
    IndicesPrefix(rs, KeyR(rs[j]), j + 1, n);
  }

  /** And the k-th of the list has k before it. */
  lemma {:induction false} RankOf(rs: seq<Removal>, key: Key, n: nat, k: nat)
    requires n <= |rs| && k < CountR(rs, key, n)
    ensures CountR(rs, key, Indices(rs, key, n)[k]) == k
    decreases n
  {
    if k < CountR(rs, key, n - 1) {
      RankOf(rs, key, n - 1, k);
    }
  }

  lemma {:induction false} CountGrows(cs: seq<Candidate>, key: Key, i: nat, n: nat)
    requires i <= n <= |cs|
    ensures CountC(cs, key, i) <= CountC(cs, key, n)
    ensures i < n && KeyC(cs[i]) == key ==> CountC(cs, key, i) < CountC(cs, key, n)
    decreases n
  {
    if i < n {
      CountGrows(cs, key, i, n - 1);
    }
  }

  lemma {:induction false} CandidateAt(cs: seq<Candidate>, key: Key, n: nat, k: nat) returns (i: nat)
    requires n <= |cs| && k < CountC(cs, key, n)
    ensures i < n && KeyC(cs[i]) == key && CountC(cs, key, i) == k
    decreases n
  {
    if k < CountC(cs, key, n - 1) {
      i := CandidateAt(cs, key, n - 1, k);
    } else {
      i := n - 1;
    }
  }

  // ----- the pairing loops -----

  type ByKey = map<Key, seq<nat>>

  function ListOf(byKey: ByKey, key: Key): seq<nat> {
    if key in byKey then byKey[key] else []
  }

  ghost predicate Grouped(rs: seq<Removal>, byKey: ByKey, n: nat) {
    n <= |rs| && forall key :: IsList(rs, byKey, n, key)
  }

  ghost predicate IsList(rs: seq<Removal>, byKey: ByKey, n: nat, key: Key)
    requires n <= |rs|
  {
    ListOf(byKey, key) == Indices(rs, key, n)
  }

  method GroupRemovals(rs: seq<Removal>) returns (byKey: ByKey)
    ensures Grouped(rs, byKey, |rs|)
  {
    byKey := map[];
    GroupStart(rs);
    for j := 0 to |rs|
      invariant Grouped(rs, byKey, j)
    {
      var key, list := KeyR(rs[j]), ListOf(byKey, KeyR(rs[j])) + [j];
      GroupNext(rs, byKey, j);
      byKey := byKey[key := list];
    }
  }

  lemma {:induction false} GroupStart(rs: seq<Removal>)
    ensures Grouped(rs, map[], 0)
  {
  }

  lemma {:induction false} GroupNext(rs: seq<Removal>, byKey: ByKey, j: nat)
    requires Grouped(rs, byKey, j) && j < |rs|
    ensures Grouped(rs, byKey[KeyR(rs[j]) := ListOf(byKey, KeyR(rs[j])) + [j]], j + 1)
  {
    var next, n := byKey[KeyR(rs[j]) := ListOf(byKey, KeyR(rs[j])) + [j]], j + 1;
    forall key ensures IsList(rs, next, n, key) {
      assert IsList(rs, byKey, j, key);
    }
  }

  /** The first removal in the list that is still free. */
  method FindFree(list: seq<nat>, used: seq<bool>) returns (k: nat)
    requires forall m :: 0 <= m < |list| ==> list[m] < |used|
    ensures k <= |list| && (forall m :: 0 <= m < k ==> used[list[m]]) && (k < |list| ==> !used[list[k]])
  {
    k := 0;
    while k < |list| && used[list[k]]
      invariant k <= |list| && forall m :: 0 <= m < k ==> used[list[m]]
    {
      k := k + 1;
    }
  }

  /** Where the pairing stands after the first `n` candidates. */
  ghost predicate PairedUpTo(cs: seq<Candidate>, rs: seq<Removal>, n: nat, pairedC: seq<bool>, pairedR: seq<bool>) {
    && n <= |cs| == |pairedC| && |rs| == |pairedR|
    && (forall i: nat :: i < |cs| ==> FlagC(cs, rs, n, pairedC, i))
    && (forall j: nat :: j < |rs| ==> FlagR(cs, rs, n, pairedR, j))
  }

  ghost predicate FlagC(cs: seq<Candidate>, rs: seq<Removal>, n: nat, pairedC: seq<bool>, i: nat)
    requires i < |cs| == |pairedC|
  {
    pairedC[i] == (i < n && PairsC(cs, rs, i))
  }

  ghost predicate FlagR(cs: seq<Candidate>, rs: seq<Removal>, n: nat, pairedR: seq<bool>, j: nat)
    requires n <= |cs| && j < |rs| == |pairedR|
  {
    pairedR[j] == (CountR(rs, KeyR(rs[j]), j) < CountC(cs, KeyR(rs[j]), n))
  }

  /** The free removals of a key are those from its count on. */
  lemma {:induction false} FreeFrom(cs: seq<Candidate>, rs: seq<Removal>, n: nat, pairedC: seq<bool>, pairedR: seq<bool>, key: Key, m: nat)
    requires PairedUpTo(cs, rs, n, pairedC, pairedR) && m < CountR(rs, key, |rs|)
    ensures pairedR[Indices(rs, key, |rs|)[m]] <==> m < CountC(cs, key, n)
  {
    RankOf(rs, key, |rs|, m);
    assert FlagR(cs, rs, n, pairedR, Indices(rs, key, |rs|)[m]);
  }

  lemma {:induction false} FirstFree(cs: seq<Candidate>, rs: seq<Removal>, n: nat, pairedC: seq<bool>, pairedR: seq<bool>, key: Key, k: nat)
    requires PairedUpTo(cs, rs, n, pairedC, pairedR)
    requires var list := Indices(rs, key, |rs|);
      k <= |list| && (forall m :: 0 <= m < k ==> pairedR[list[m]]) && (k < |list| ==> !pairedR[list[k]])
    ensures var all := CountR(rs, key, |rs|);
      if CountC(cs, key, n) < all then k == CountC(cs, key, n) else k == all
  {
    if k > 0 {
      FreeFrom(cs, rs, n, pairedC, pairedR, key, k - 1);
    }
    if k < CountR(rs, key, |rs|) {
      FreeFrom(cs, rs, n, pairedC, pairedR, key, k);
    }
  }

  lemma {:induction false} PairNext(cs: seq<Candidate>, rs: seq<Removal>, n: nat, pairedC: seq<bool>, pairedR: seq<bool>)
    requires PairedUpTo(cs, rs, n, pairedC, pairedR) && n < |cs| && PairsC(cs, rs, n)
    ensures var j := Indices(rs, KeyC(cs[n]), |rs|)[CountC(cs, KeyC(cs[n]), n)];
      PairedUpTo(cs, rs, n + 1, pairedC[n := true], pairedR[j := true])
  {
    var key := KeyC(cs[n]);
    var c := CountC(cs, key, n);
    var j := Indices(rs, key, |rs|)[c];
    RankOf(rs, key, |rs|, c);
    var next, nextC, nextR := n + 1, pairedC[n := true], pairedR[j := true];
    forall i | 0 <= i < |cs| ensures FlagC(cs, rs, next, nextC, i) {
      assert FlagC(cs, rs, n, pairedC, i);
    }
    forall i | 0 <= i < |rs| ensures FlagR(cs, rs, next, nextR, i) {
      assert FlagR(cs, rs, n, pairedR, i);
      IndexOf(rs, i, |rs|);
    }
  }

  lemma {:induction false} SkipNext(cs: seq<Candidate>, rs: seq<Removal>, n: nat, pairedC: seq<bool>, pairedR: seq<bool>)
    requires PairedUpTo(cs, rs, n, pairedC, pairedR) && n < |cs| && !PairsC(cs, rs, n)
    ensures PairedUpTo(cs, rs, n + 1, pairedC, pairedR)
  {
    var next := n + 1;
    forall i | 0 <= i < |cs| ensures FlagC(cs, rs, next, pairedC, i) {
      assert FlagC(cs, rs, n, pairedC, i);
    }
    forall j | 0 <= j < |rs| ensures FlagR(cs, rs, next, pairedR, j) {
      assert FlagR(cs, rs, n, pairedR, j);
      IndexOf(rs, j, |rs|);
    }
  }

  function AllFree(n: nat): (flags: seq<bool>)
    ensures |flags| == n && forall i :: 0 <= i < n ==> !flags[i]
  {
    seq(n, _ => false)
  }

  /** Greedy pairing: every added bullet, in order, takes the first free removal of its key. */
  method PairUp(cs: seq<Candidate>, rs: seq<Removal>) returns (pairedC: seq<bool>, pairedR: seq<bool>)
    ensures pairedC == FlagsC(cs, rs) && pairedR == FlagsR(cs, rs)
  {
    var byKey := GroupRemovals(rs);
    pairedC, pairedR := AllFree(|cs|), AllFree(|rs|);
    PairStart(cs, rs, pairedC, pairedR);
    for i := 0 to |cs|
      invariant PairedUpTo(cs, rs, i, pairedC, pairedR)
    {
      var key := KeyC(cs[i]);
      var list := ListOf(byKey, key);
      GroupOf(rs, byKey, key);
      var k := FindFree(list, pairedR);
      StepPairs(cs, rs, i, pairedC, pairedR, list, k);
      if k < |list| {
        pairedC, pairedR := pairedC[i := true], pairedR[list[k] := true];
      }
    }
    PairEnd(cs, rs, pairedC, pairedR);
  }

  /** What one added bullet does: it takes the first free removal of its key, if there is one. */
  lemma {:induction false} StepPairs(cs: seq<Candidate>, rs: seq<Removal>, i: nat, pairedC: seq<bool>, pairedR: seq<bool>, list: seq<nat>, k: nat)
    requires i < |cs| && PairedUpTo(cs, rs, i, pairedC, pairedR) && list == Indices(rs, KeyC(cs[i]), |rs|)
    requires k <= |list| && (forall m :: 0 <= m < k ==> pairedR[list[m]]) && (k < |list| ==> !pairedR[list[k]])
    ensures if k < |list| then PairedUpTo(cs, rs, i + 1, pairedC[i := true], pairedR[list[k] := true])
            else PairedUpTo(cs, rs, i + 1, pairedC, pairedR)
  {
    FirstFree(cs, rs, i, pairedC, pairedR, KeyC(cs[i]), k);
    if k < |list| {
      PairNext(cs, rs, i, pairedC, pairedR);
    } else {
      SkipNext(cs, rs, i, pairedC, pairedR);
    }
  }

  lemma {:induction false} GroupOf(rs: seq<Removal>, byKey: ByKey, key: Key)
    requires Grouped(rs, byKey, |rs|)
    ensures ListOf(byKey, key) == Indices(rs, key, |rs|)
    ensures forall m :: 0 <= m < |ListOf(byKey, key)| ==> ListOf(byKey, key)[m] < |rs|
  {
    assert IsList(rs, byKey, |rs|, key);
  }

  lemma {:induction false} PairStart(cs: seq<Candidate>, rs: seq<Removal>, pairedC: seq<bool>, pairedR: seq<bool>)
    requires |pairedC| == |cs| && |pairedR| == |rs|
    requires (forall i :: 0 <= i < |cs| ==> !pairedC[i]) && (forall j :: 0 <= j < |rs| ==> !pairedR[j])
    ensures PairedUpTo(cs, rs, 0, pairedC, pairedR)
  {
  }

  lemma {:induction false} PairEnd(cs: seq<Candidate>, rs: seq<Removal>, pairedC: seq<bool>, pairedR: seq<bool>)
    requires PairedUpTo(cs, rs, |cs|, pairedC, pairedR)
    ensures pairedC == FlagsC(cs, rs) && pairedR == FlagsR(cs, rs)
  {
    forall i | 0 <= i < |cs| ensures pairedC[i] == PairsC(cs, rs, i) {
      assert FlagC(cs, rs, |cs|, pairedC, i);
    }
    forall j | 0 <= j < |rs| ensures pairedR[j] == PairsR(cs, rs, j) {
      assert FlagR(cs, rs, |cs|, pairedR, j);
    }
  }

  // ----- what the pairing is worth -----

  // Which removal each paired candidate goes with.
  type Partners = map<nat, nat>

  ghost function PartnersOf(cs: seq<Candidate>, rs: seq<Removal>): Partners {
    map i: nat | i < |cs| && PairsC(cs, rs, i) :: Indices(rs, KeyC(cs[i]), |rs|)[CountC(cs, KeyC(cs[i]), i)]
  }

  /** One-to-one, and only between bullets of the same path and trimmed text. */
  ghost predicate Paired(cs: seq<Candidate>, rs: seq<Removal>, partners: Partners) {
    && (forall i :: i in partners ==> i < |cs| && partners[i] < |rs| && KeyC(cs[i]) == KeyR(rs[partners[i]]))
    && (forall i, j :: i in partners && j in partners && partners[i] == partners[j] ==> i == j)
  }

  /** No pair is left open: of two bullets with one key one is paired. */
  ghost predicate Saturated(cs: seq<Candidate>, rs: seq<Removal>, partners: Partners) {
    forall i, j :: 0 <= i < |cs| && 0 <= j < |rs| && KeyC(cs[i]) == KeyR(rs[j]) ==> i in partners || j in partners.Values
  }

  /** The flags that the loop leaves are those of a one-to-one pairing of equal keys that leaves no pair open. */
  lemma {:induction false} PairingIsOneToOne(cs: seq<Candidate>, rs: seq<Removal>)
    ensures var partners := PartnersOf(cs, rs);
      && Paired(cs, rs, partners) && Saturated(cs, rs, partners)
      && (forall i :: 0 <= i < |cs| ==> (FlagsC(cs, rs)[i] <==> i in partners))
      && (forall j :: 0 <= j < |rs| ==> (FlagsR(cs, rs)[j] <==> j in partners.Values))
  {
    var partners := PartnersOf(cs, rs);
    PartnersDiffer(cs, rs);
    forall j: nat | j < |rs| ensures PairsR(cs, rs, j) <==> j in partners.Values {
      PartnerExists(cs, rs, j);
    }
    forall i: nat, j: nat | i < |cs| && j < |rs| && KeyC(cs[i]) == KeyR(rs[j]) ensures PairsC(cs, rs, i) || PairsR(cs, rs, j) {
      CountGrows(cs, KeyC(cs[i]), i, |cs|);
      IndexOf(rs, j, |rs|);
    }
  }

  lemma {:induction false} PartnersDiffer(cs: seq<Candidate>, rs: seq<Removal>)
    ensures Paired(cs, rs, PartnersOf(cs, rs))
  {
    var partners := PartnersOf(cs, rs);
    forall i, j | i in partners && j in partners && partners[i] == partners[j] ensures i == j {
      var key := KeyC(cs[i]);
      RankOf(rs, key, |rs|, CountC(cs, key, i));
      RankOf(rs, KeyC(cs[j]), |rs|, CountC(cs, KeyC(cs[j]), j));
      if i < j { CountGrows(cs, key, i, j); }
      if j < i { CountGrows(cs, key, j, i); }
    }
  }

  lemma {:induction false} PartnerExists(cs: seq<Candidate>, rs: seq<Removal>, j: nat)
    requires j < |rs|
    ensures PairsR(cs, rs, j) <==> j in PartnersOf(cs, rs).Values
  {
    var partners, key := PartnersOf(cs, rs), KeyR(rs[j]);
    IndexOf(rs, j, |rs|);
    if PairsR(cs, rs, j) {
      var i := CandidateAt(cs, key, |cs|, CountR(rs, key, j));
      assert i in partners && partners[i] == j;
    }
    if j in partners.Values {
      var i :| i in partners && partners[i] == j;
      RankOf(rs, key, |rs|, CountC(cs, key, i));
      CountGrows(cs, key, i, |cs|);
    }
  }

  function CandidatesOf(cs: seq<Candidate>, key: Key): set<nat> {
    set i | 0 <= i < |cs| && KeyC(cs[i]) == key
  }

  function RemovalsOf(rs: seq<Removal>, key: Key): set<nat> {
    set j | 0 <= j < |rs| && KeyR(rs[j]) == key
  }

  ghost function PairedOf(cs: seq<Candidate>, partners: Partners, key: Key): set<nat> {
    set i | i in partners && i < |cs| && KeyC(cs[i]) == key
  }

  lemma {:induction false} ImageSize(keys: set<nat>, partners: Partners)
    requires keys <= partners.Keys
    requires forall i, j :: i in keys && j in keys && partners[i] == partners[j] ==> i == j
    ensures |set i | i in keys :: partners[i]| == |keys|
    decreases |keys|
  {
    var image := set i | i in keys :: partners[i];
    if keys == {} {
      assert image == {};
    } else {
      var k :| k in keys;
      var rest := keys - {k};
      ImageSize(rest, partners);
      assert image == (set i | i in rest :: partners[i]) + {partners[k]};
    }
  }

  /** The pairing is as large as it can be: for every key the smaller of the two counts. */
  lemma {:induction false} PairingIsMaximal(cs: seq<Candidate>, rs: seq<Removal>, key: Key)
    ensures var c, r := |CandidatesOf(cs, key)|, |RemovalsOf(rs, key)|;
      |PairedOf(cs, PartnersOf(cs, rs), key)| == if c < r then c else r
  {
    PairingIsOneToOne(cs, rs);
    SaturatedIsMaximal(cs, rs, PartnersOf(cs, rs), key);
  }

  lemma {:induction false} SaturatedIsMaximal(cs: seq<Candidate>, rs: seq<Removal>, partners: Partners, key: Key)
    requires Paired(cs, rs, partners) && Saturated(cs, rs, partners)
    ensures var c, r := |CandidatesOf(cs, key)|, |RemovalsOf(rs, key)|;
      |PairedOf(cs, partners, key)| == if c < r then c else r
  {
    var p := PairedOf(cs, partners, key);
    var image := set i | i in p :: partners[i];
    ImageSize(p, partners);
    SubsetSize(p, CandidatesOf(cs, key));
    SubsetSize(image, RemovalsOf(rs, key));
    if p != CandidatesOf(cs, key) {
      var i :| i in CandidatesOf(cs, key) && i !in p;
      forall j | j in RemovalsOf(rs, key) ensures j in image {
        assert i in partners || j in partners.Values;
        var m :| m in partners && partners[m] == j;
        assert m in p;
      }
      assert image == RemovalsOf(rs, key);
    }
  }

  // ----- setting off rewritten bullets -----

  /** Unpaired additions of a hunk among the first `n`. */
  function Unpaired(cs: seq<Candidate>, pairedC: seq<bool>, h: Hunk, n: nat): nat
    requires n <= |cs| == |pairedC|
  {
    if n == 0 then 0 else Unpaired(cs, pairedC, h, n - 1) + if cs[n - 1].hunk == h && !pairedC[n - 1] then 1 else 0
  }

  function UnpairedRemovals(rs: seq<Removal>, pairedR: seq<bool>, h: Hunk, n: nat): nat
    requires n <= |rs| == |pairedR|
  {
    if n == 0 then 0 else UnpairedRemovals(rs, pairedR, h, n - 1) + if rs[n - 1].hunk == h && !pairedR[n - 1] then 1 else 0
  }

  type Counts = map<Hunk, nat>

  function Count(counts: Counts, h: Hunk): nat {
    if h in counts then counts[h] else 0
  }

  function Monus(a: int, b: int): nat {
    if a < b then 0 else a - b
  }

  method CountRemovals(rs: seq<Removal>, pairedR: seq<bool>) returns (counts: Counts)
    requires |rs| == |pairedR|
    ensures forall h :: Count(counts, h) == UnpairedRemovals(rs, pairedR, h, |rs|)
  {
    counts := map[];
    for j := 0 to |rs|
      invariant forall h :: Count(counts, h) == UnpairedRemovals(rs, pairedR, h, j)
    {
      if !pairedR[j] {
        counts := counts[rs[j].hunk := Count(counts, rs[j].hunk) + 1];
      }
    }
  }

  /** An unpaired addition, outside hunks that add a release heading, with enough unpaired ones of its hunk before it. */
  predicate Keeps(cs: seq<Candidate>, pairedC: seq<bool>, headings: set<Hunk>, counts: Counts, i: nat)
    requires i < |cs| == |pairedC|
  {
    !pairedC[i] && cs[i].hunk !in headings && Count(counts, cs[i].hunk) <= Unpaired(cs, pairedC, cs[i].hunk, i)
  }

  /** How many of the first `n` candidates stand in this hunk and are kept. */
  function KeptIn(cs: seq<Candidate>, pairedC: seq<bool>, headings: set<Hunk>, counts: Counts, h: Hunk, n: nat): nat
    requires n <= |cs| == |pairedC|
  {
    if n == 0 then 0
    else
      KeptIn(cs, pairedC, headings, counts, h, n - 1)
      + if cs[n - 1].hunk == h && Keeps(cs, pairedC, headings, counts, n - 1) then 1 else 0
  }

  /** Kept per hunk: the unpaired additions beyond its unpaired removals, or none when it adds a release heading. */
  lemma {:induction false} KeptIsSurplus(cs: seq<Candidate>, pairedC: seq<bool>, headings: set<Hunk>, counts: Counts, h: Hunk, n: nat)
    requires n <= |cs| == |pairedC|
    ensures KeptIn(cs, pairedC, headings, counts, h, n)
      == if h in headings then 0 else Monus(Unpaired(cs, pairedC, h, n), Count(counts, h))
    decreases n
  {
    if n > 0 {
      KeptIsSurplus(cs, pairedC, headings, counts, h, n - 1);
    }
  }

  type LinesByPath = map<string, set<int>>

  function LinesOf(lines: LinesByPath, path: string): set<int> {
    if path in lines then lines[path] else {}
  }

  /** Some kept candidate among the first `n` stands on this line of this file. */
  ghost predicate KeptLine(cs: seq<Candidate>, pairedC: seq<bool>, headings: set<Hunk>, counts: Counts, n: nat, path: string, line: int)
    requires n <= |cs| == |pairedC|
  {
    exists i :: 0 <= i < n && cs[i].path == path && cs[i].lineNumber == line && Keeps(cs, pairedC, headings, counts, i)
  }

  ghost predicate SelectedUpTo(cs: seq<Candidate>, pairedC: seq<bool>, headings: set<Hunk>, counts0: Counts,
                               n: nat, counts: Counts, byPath: LinesByPath)
    requires n <= |cs| == |pairedC|
  {
    && (forall h :: h !in headings ==> Count(counts, h) == Monus(Count(counts0, h), Unpaired(cs, pairedC, h, n)))
    && (forall path, line :: line in LinesOf(byPath, path) <==> KeptLine(cs, pairedC, headings, counts0, n, path, line))
  }

  lemma {:induction false} SelectNext(cs: seq<Candidate>, pairedC: seq<bool>, headings: set<Hunk>, counts0: Counts,
                                      n: nat, counts: Counts, byPath: LinesByPath)
    requires n < |cs| == |pairedC| && SelectedUpTo(cs, pairedC, headings, counts0, n, counts, byPath)
    ensures var c := cs[n];
      if pairedC[n] || c.hunk in headings then SelectedUpTo(cs, pairedC, headings, counts0, n + 1, counts, byPath)
      else if Count(counts, c.hunk) > 0
      then SelectedUpTo(cs, pairedC, headings, counts0, n + 1, counts[c.hunk := Count(counts, c.hunk) - 1], byPath)
      else SelectedUpTo(cs, pairedC, headings, counts0, n + 1, counts, byPath[c.path := LinesOf(byPath, c.path) + {c.lineNumber}])
  {
    var c := cs[n];
    forall path, line {
      KeptLineNext(cs, pairedC, headings, counts0, n, path, line);
    }
    var next := byPath[c.path := LinesOf(byPath, c.path) + {c.lineNumber}];
    assert forall path, line :: line in LinesOf(next, path) <==> line in LinesOf(byPath, path) || (c.path == path && c.lineNumber == line);
  }

  lemma {:induction false} KeptLineNext(cs: seq<Candidate>, pairedC: seq<bool>, headings: set<Hunk>, counts0: Counts,
                                        n: nat, path: string, line: int)
    requires n < |cs| == |pairedC|
    ensures KeptLine(cs, pairedC, headings, counts0, n + 1, path, line)
      == (KeptLine(cs, pairedC, headings, counts0, n, path, line)
          || (cs[n].path == path && cs[n].lineNumber == line && Keeps(cs, pairedC, headings, counts0, n)))
  {
  }

  /** Each unpaired removal of a hunk sets off one of its unpaired additions; the lines of the others are collected. */
  method SelectLines(cs: seq<Candidate>, pairedC: seq<bool>, headings: set<Hunk>, counts0: Counts) returns (byPath: LinesByPath)
    requires |cs| == |pairedC|
    ensures forall path, line :: line in LinesOf(byPath, path) <==> KeptLine(cs, pairedC, headings, counts0, |cs|, path, line)
  {
    byPath := map[];
    var counts: Counts := counts0;
    for i := 0 to |cs|
      invariant SelectedUpTo(cs, pairedC, headings, counts0, i, counts, byPath)
    {
      var c := cs[i];
      SelectNext(cs, pairedC, headings, counts0, i, counts, byPath);
      if !pairedC[i] && c.hunk !in headings {
        if Count(counts, c.hunk) > 0 {
          counts := counts[c.hunk := Count(counts, c.hunk) - 1];
        } else {
          byPath := byPath[c.path := LinesOf(byPath, c.path) + {c.lineNumber}];
        }
      }
    }
  }
}
