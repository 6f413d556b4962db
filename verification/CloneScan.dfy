/** Clone detection: windows with equal hashes, clustering, and the lines each cluster covers. */
module CloneScan {
  import opened Collections
  import opened CloneUnionFind

  const CLONE_WINDOW: nat := 7
  // Positions encode file * 2^24 + window; files are shorter than that.
  const POS: nat := 0x100_0000

  datatype SigLine = SigLine(text: string, number: nat)

  type Sig = seq<seq<SigLine>>

  ghost predicate FilesFit(sig: Sig) {
    forall f :: 0 <= f < |sig| ==> |sig[f]| < POS
  }

  /** `pos` encodes a window of seven significant lines of some file. */
  predicate IsWindow(sig: Sig, pos: nat) {
    pos / POS < |sig| && pos % POS + CLONE_WINDOW <= |sig[pos / POS]|
  }

  function Texts(lines: seq<SigLine>): seq<string> {
    seq(|lines|, i requires 0 <= i < |lines| => lines[i].text)
  }

  function HashAt(sig: Sig, hash: seq<string> -> nat, pos: nat): nat
    requires IsWindow(sig, pos)
  {
    var i := pos % POS;
    hash(Texts(sig[pos / POS][i..i + CLONE_WINDOW]))
  }

  /** The k-th text of a window. */
  function TextAt(sig: Sig, pos: nat, k: nat): string
    requires IsWindow(sig, pos) && k < 7
  {
    sig[pos / POS][pos % POS + k].text
  }

  predicate SameTexts(sig: Sig, a: nat, b: nat)
    requires IsWindow(sig, a) && IsWindow(sig, b)
  {
    forall k :: 0 <= k < 7 ==> TextAt(sig, a, k) == TextAt(sig, b, k)
  }

  lemma {:induction false} WindowTexts(sig: Sig, hash: seq<string> -> nat, pos: nat) returns (texts: seq<string>)
    requires IsWindow(sig, pos)
    ensures HashAt(sig, hash, pos) == hash(texts)
    ensures |texts| == 7 && forall k :: 0 <= k < 7 ==> texts[k] == TextAt(sig, pos, k)
  {
    texts := Texts(sig[pos / POS][pos % POS..pos % POS + CLONE_WINDOW]);
  }

  /** Windows with the same seven texts have equal hashes, and only those if no two texts have one hash. */
  lemma {:induction false} EqualTexts(sig: Sig, hash: seq<string> -> nat, a: nat, b: nat)
    requires IsWindow(sig, a) && IsWindow(sig, b)
    ensures SameTexts(sig, a, b) ==> HashAt(sig, hash, a) == HashAt(sig, hash, b)
    ensures (forall s, t :: hash(s) == hash(t) ==> s == t) && HashAt(sig, hash, a) == HashAt(sig, hash, b) ==> SameTexts(sig, a, b)
  {
    var s := WindowTexts(sig, hash, a);
    var t := WindowTexts(sig, hash, b);
    if SameTexts(sig, a, b) {
      assert s == t;
    }
  }

  /** Another window has the same hash. */
  ghost predicate Matched(sig: Sig, hash: seq<string> -> nat, pos: nat) {
    && IsWindow(sig, pos)
    && exists q: nat :: q != pos && IsWindow(sig, q) && HashAt(sig, hash, q) == HashAt(sig, hash, pos)
  }

  /** Two matched windows with equal hashes, or one right after the other. */
  ghost predicate CloneLink(sig: Sig, hash: seq<string> -> nat, a: nat, b: nat) {
    && Matched(sig, hash, a) && Matched(sig, hash, b)
    && (HashAt(sig, hash, a) == HashAt(sig, hash, b) || b == a + 1)
  }

  ghost function CloneLinks(sig: Sig, hash: seq<string> -> nat): Links {
    set a: nat, b: nat | a < |sig| * POS && b < |sig| * POS && CloneLink(sig, hash, a, b) :: (a, b)
  }

  lemma {:induction false} WindowsAreBounded(sig: Sig, pos: nat)
    requires IsWindow(sig, pos)
    ensures pos < |sig| * POS
  {
    assert pos == (pos / POS) * POS + pos % POS;
    assert (pos / POS) * POS <= (|sig| - 1) * POS;
  }

  // ----- windows by hash -----

  type ByHash = map<nat, seq<nat>>

  predicate Increasing(s: seq<nat>) {
    forall i, j :: 0 <= i < j < |s| ==> s[i] < s[j]
  }

  /** A list of windows below `bound` with one hash, in increasing order. */
  ghost predicate ListOk(sig: Sig, hash: seq<string> -> nat, h: nat, list: seq<nat>, bound: nat) {
    && list != []
    && Increasing(list)
    && forall i :: 0 <= i < |list| ==> IsWindow(sig, list[i]) && HashAt(sig, hash, list[i]) == h && list[i] < bound
  }

  /** Exactly the windows below `bound` are listed, each under its hash. */
  ghost predicate Collected(sig: Sig, hash: seq<string> -> nat, byHash: ByHash, bound: nat) {
    && (forall h: nat :: h in byHash ==> ListOk(sig, hash, h, byHash[h], bound))
    && (forall p: nat :: IsWindow(sig, p) && p < bound ==> Listed(sig, hash, byHash, p))
  }

  ghost predicate Listed(sig: Sig, hash: seq<string> -> nat, byHash: ByHash, p: nat)
    requires IsWindow(sig, p)
  {
    HashAt(sig, hash, p) in byHash && p in byHash[HashAt(sig, hash, p)]
  }

  lemma {:induction false} CollectNext(sig: Sig, hash: seq<string> -> nat, byHash: ByHash, bound: nat, list: seq<nat>)
    requires Collected(sig, hash, byHash, bound) && IsWindow(sig, bound)
    requires var h := HashAt(sig, hash, bound); list == (if h in byHash then byHash[h] else []) + [bound]
    ensures Collected(sig, hash, byHash[HashAt(sig, hash, bound) := list], bound + 1)
  {
    var h := HashAt(sig, hash, bound);
    var next := byHash[h := list];
    NextListOk(sig, hash, h, if h in byHash then byHash[h] else [], bound);
    forall k: nat | k in next ensures ListOk(sig, hash, k, next[k], bound + 1) {
      if k != h { LaterListOk(sig, hash, k, byHash[k], bound); }
    }
    forall p: nat | IsWindow(sig, p) && p < bound + 1 ensures Listed(sig, hash, next, p) {
      if p < bound { assert Listed(sig, hash, byHash, p); }
    }
  }

  lemma {:induction false} NextListOk(sig: Sig, hash: seq<string> -> nat, h: nat, list: seq<nat>, bound: nat)
    requires IsWindow(sig, bound) && h == HashAt(sig, hash, bound)
    requires list == [] || ListOk(sig, hash, h, list, bound)
    ensures ListOk(sig, hash, h, list + [bound], bound + 1)
  {
  }

  lemma {:induction false} LaterListOk(sig: Sig, hash: seq<string> -> nat, h: nat, list: seq<nat>, bound: nat)
    requires ListOk(sig, hash, h, list, bound)
    ensures ListOk(sig, hash, h, list, bound + 1)
  {
  }

  /** Positions that are no windows change nothing. */
  lemma {:induction false} CollectSkip(sig: Sig, hash: seq<string> -> nat, byHash: ByHash, bound: nat, next: nat)
    requires Collected(sig, hash, byHash, bound) && bound <= next
    requires forall p: nat :: bound <= p < next ==> !IsWindow(sig, p)
    ensures Collected(sig, hash, byHash, next)
  {
    forall k | k in byHash ensures ListOk(sig, hash, k, byHash[k], next) {
      assert ListOk(sig, hash, k, byHash[k], bound);
    }
  }

  lemma {:induction false} PositionParts(f: nat, i: nat)
    requires i < POS
    ensures (f * POS + i) / POS == f && (f * POS + i) % POS == i
  {
  }

  lemma {:induction false} NoWindowsLeft(sig: Sig, f: nat, i: nat)
    requires f < |sig| && i < POS && i + CLONE_WINDOW > |sig[f]|
    ensures forall p: nat :: f * POS + i <= p < (f + 1) * POS ==> !IsWindow(sig, p)
  {
    forall p: nat | f * POS + i <= p < (f + 1) * POS ensures !IsWindow(sig, p) {
      PositionParts(f, p - f * POS);
    }
  }

  method CollectFile(sig: Sig, hash: seq<string> -> nat, byHash0: ByHash, f: nat) returns (byHash: ByHash)
    requires FilesFit(sig) && f < |sig| && Collected(sig, hash, byHash0, f * POS)
    ensures Collected(sig, hash, byHash, (f + 1) * POS)
  {
    byHash := byHash0;
    var i := 0;
    while i + CLONE_WINDOW <= |sig[f]|
      invariant i <= |sig[f]| && Collected(sig, hash, byHash, f * POS + i)
    {
      var pos := f * POS + i;
      PositionParts(f, i);
      var h := hash(Texts(sig[f][i..i + CLONE_WINDOW]));
      assert h == HashAt(sig, hash, pos);
      var list := if h in byHash then byHash[h] else [];
      CollectNext(sig, hash, byHash, pos, list + [pos]);
      byHash := byHash[h := list + [pos]];
      i := i + 1;
    }
    NoWindowsLeft(sig, f, i);
    CollectSkip(sig, hash, byHash, f * POS + i, (f + 1) * POS);
  }

  method CollectWindows(sig: Sig, hash: seq<string> -> nat) returns (byHash: ByHash)
    requires FilesFit(sig)
    ensures Collected(sig, hash, byHash, |sig| * POS)
  {
    byHash := map[];
    for f := 0 to |sig|
      invariant Collected(sig, hash, byHash, f * POS)
    {
      byHash := CollectFile(sig, hash, byHash, f);
    }
  }

  // ----- clustering -----

  /** The lists of the first hashes have been linked: heads to members, and nothing but matches. */
  ghost predicate LinkedHashes(sig: Sig, hash: seq<string> -> nat, byHash: ByHash, done: set<nat>, links: Links, matched: set<nat>) {
    && (forall h: nat, p: nat :: h in done && h in byHash && |byHash[h]| >= 2 && p in byHash[h] ==> p in matched && (byHash[h][0], p) in links)
    && (forall p: nat :: p in matched ==> Matched(sig, hash, p))
    && OnlyCloneLinks(sig, hash, links)
  }

  lemma {:induction false} ListIsMatched(sig: Sig, hash: seq<string> -> nat, byHash: ByHash, bound: nat, h: nat)
    requires Collected(sig, hash, byHash, bound) && h in byHash && |byHash[h]| >= 2
    ensures forall p: nat :: p in byHash[h] ==> Matched(sig, hash, p) && CloneLink(sig, hash, byHash[h][0], p)
  {
    var list := byHash[h];
    assert ListOk(sig, hash, h, list, bound);
    forall i | 0 <= i < |list| ensures Matched(sig, hash, list[i]) {
      var other := if i == 0 then list[1] else list[0];
      assert other != list[i] && IsWindow(sig, other) && HashAt(sig, hash, other) == HashAt(sig, hash, list[i]);
    }
  }

  method LinkList(sig: Sig, ghost hash: seq<string> -> nat, list: seq<nat>, uf: UnionFind, matched0: set<nat>)
    returns (matched: set<nat>)
    requires uf.Valid() && list != []
    modifies uf
    ensures uf.Valid() && ListLinked(list, old(uf.links), matched0, uf.links, matched)
  {
    matched := matched0;
    for i := 0 to |list|
      invariant uf.Valid()
      invariant matched == matched0 + set p: nat | p in list[..i]
      invariant forall a: nat, b: nat :: (a, b) in uf.links <==> (a, b) in old(uf.links) || (a == list[0] && b in list[..i])
    {
      assert list[..i + 1] == list[..i] + [list[i]];
      matched := matched + {list[i]};
      uf.Union(list[0], list[i]);
    }
    assert list[..|list|] == list;
  }

  /** What linking one list leaves: everyone in it matched, and linked to its head. */
  ghost predicate ListLinked(list: seq<nat>, links: Links, matched: set<nat>, links2: Links, matched2: set<nat>)
    requires list != []
  {
    && matched2 == matched + (set p: nat | p in list)
    && forall a: nat, b: nat :: (a, b) in links2 <==> (a, b) in links || (a == list[0] && b in list)
  }

  lemma {:induction false} OneMoreHash(sig: Sig, hash: seq<string> -> nat, byHash: ByHash, done: set<nat>, links: Links, matched: set<nat>,
                    h: nat, links2: Links, matched2: set<nat>)
    requires Collected(sig, hash, byHash, |sig| * POS) && h in byHash
    requires LinkedHashes(sig, hash, byHash, done, links, matched)
    requires if |byHash[h]| >= 2 then ListLinked(byHash[h], links, matched, links2, matched2)
             else links2 == links && matched2 == matched
    ensures LinkedHashes(sig, hash, byHash, done + {h}, links2, matched2)
  {
    if |byHash[h]| >= 2 {
      ListIsMatched(sig, hash, byHash, |sig| * POS, h);
    }
  }

  method LinkHashes(sig: Sig, ghost hash: seq<string> -> nat, byHash: ByHash, uf: UnionFind) returns (matched: set<nat>)
    requires Collected(sig, hash, byHash, |sig| * POS) && uf.Valid() && uf.links == {}
    modifies uf
    ensures uf.Valid() && LinkedHashes(sig, hash, byHash, byHash.Keys, uf.links, matched)
  {
    matched := {};
    var todo := byHash.Keys;
    while todo != {}
      invariant uf.Valid() && todo <= byHash.Keys
      invariant LinkedHashes(sig, hash, byHash, byHash.Keys - todo, uf.links, matched)
      decreases todo
    {
      var h :| h in todo;
      ghost var before, links := matched, uf.links;
      if |byHash[h]| >= 2 {
        matched := LinkList(sig, hash, byHash[h], uf, matched);
      }
      OneMoreHash(sig, hash, byHash, byHash.Keys - todo, links, before, h, uf.links, matched);
      assert byHash.Keys - todo + {h} == byHash.Keys - (todo - {h});
      todo := todo - {h};
    }
    assert byHash.Keys - {} == byHash.Keys;
  }

  ghost predicate OnlyCloneLinks(sig: Sig, hash: seq<string> -> nat, links: Links) {
    forall a: nat, b: nat :: (a, b) in links ==> CloneLink(sig, hash, a, b)
  }

  /** The windows in `done` are linked to the matched windows right after them. */
  ghost predicate NextLinked(done: set<nat>, matched: set<nat>, links: Links) {
    forall p: nat :: p in done && p + 1 in matched ==> (p, p + 1) in links
  }

  method LinkConsecutive(ghost sig: Sig, ghost hash: seq<string> -> nat, uf: UnionFind, matched: set<nat>)
    requires uf.Valid() && (forall p: nat :: p in matched ==> Matched(sig, hash, p))
    requires OnlyCloneLinks(sig, hash, uf.links)
    modifies uf
    ensures uf.Valid() && old(uf.links) <= uf.links
    ensures NextLinked(matched, matched, uf.links) && OnlyCloneLinks(sig, hash, uf.links)
  {
    var todo := matched;
    while todo != {}
      invariant uf.Valid() && todo <= matched && old(uf.links) <= uf.links
      invariant NextLinked(matched - todo, matched, uf.links)
      invariant OnlyCloneLinks(sig, hash, uf.links)
      decreases todo
    {
      var pos :| pos in todo;
      ghost var before := uf.links;
      if pos + 1 in matched {
        assert CloneLink(sig, hash, pos, pos + 1);
        uf.Union(pos, pos + 1);
      }
      OneMoreLinked(sig, hash, matched - todo, matched, before, uf.links, pos);
      assert matched - todo + {pos} == matched - (todo - {pos});
      todo := todo - {pos};
    }
    assert matched - {} == matched;
  }

  lemma {:induction false} OneMoreLinked(sig: Sig, hash: seq<string> -> nat, done: set<nat>, matched: set<nat>, before: Links, links: Links, pos: nat)
    requires NextLinked(done, matched, before) && OnlyCloneLinks(sig, hash, before)
    requires if pos + 1 in matched then CloneLink(sig, hash, pos, pos + 1) && links == before + {(pos, pos + 1)} else links == before
    ensures NextLinked(done + {pos}, matched, links) && OnlyCloneLinks(sig, hash, links)
  {
  }

  /** `matched` is exactly the matched windows. */
  lemma {:induction false} AllMatchedFound(sig: Sig, hash: seq<string> -> nat, byHash: ByHash, links: Links, matched: set<nat>, p: nat)
    requires Collected(sig, hash, byHash, |sig| * POS)
    requires LinkedHashes(sig, hash, byHash, byHash.Keys, links, matched) && Matched(sig, hash, p)
    ensures p in matched
    ensures var list := byHash[HashAt(sig, hash, p)]; list != [] && list[0] in matched && (list[0], p) in links
  {
    var q: nat :| q != p && IsWindow(sig, q) && HashAt(sig, hash, q) == HashAt(sig, hash, p);
    WindowsAreBounded(sig, p);
    WindowsAreBounded(sig, q);
    var list := byHash[HashAt(sig, hash, p)];
    assert Listed(sig, hash, byHash, p) && Listed(sig, hash, byHash, q);
    assert p in list && q in list;
    assert |list| >= 2;
    assert list[0] in list;
  }

  /** Two windows with a clone link were united, directly or through the first window with their hash. */
  lemma {:induction false} CloneLinkBridged(sig: Sig, hash: seq<string> -> nat, byHash: ByHash, some: Links, links: Links, matched: set<nat>, a: nat, b: nat)
    requires Collected(sig, hash, byHash, |sig| * POS)
    requires LinkedHashes(sig, hash, byHash, byHash.Keys, some, matched) && some <= links
    requires NextLinked(matched, matched, links) && CloneLink(sig, hash, a, b)
    ensures Linked(links, a, b)
  {
    AllMatchedFound(sig, hash, byHash, some, matched, a);
    AllMatchedFound(sig, hash, byHash, some, matched, b);
    if b == a + 1 {
      LinkedOne(links, a, b);
    } else {
      var head := byHash[HashAt(sig, hash, a)][0];
      LinkedOne(links, a, head);
      LinkedOne(links, head, b);
      LinkedTrans(links, a, head, b);
    }
  }

  /** The united pairs and the clone links have the same chains. */
  lemma {:induction false} SameChains(sig: Sig, hash: seq<string> -> nat, byHash: ByHash, some: Links, links: Links, matched: set<nat>, x: nat, y: nat)
    requires Collected(sig, hash, byHash, |sig| * POS)
    requires LinkedHashes(sig, hash, byHash, byHash.Keys, some, matched) && some <= links
    requires NextLinked(matched, matched, links) && OnlyCloneLinks(sig, hash, links)
    ensures Linked(links, x, y) <==> Linked(CloneLinks(sig, hash), x, y)
  {
    var wanted := CloneLinks(sig, hash);
    forall a: nat, b: nat | (a, b) in links ensures Linked(wanted, a, b) {
      WindowsAreBounded(sig, a);
      WindowsAreBounded(sig, b);
      LinkedOne(wanted, a, b);
    }
    forall a: nat, b: nat | (a, b) in wanted ensures Linked(links, a, b) {
      CloneLinkBridged(sig, hash, byHash, some, links, matched, a, b);
    }
    if Linked(links, x, y) { LinkedVia(links, wanted, x, y); }
    if Linked(wanted, x, y) { LinkedVia(wanted, links, x, y); }
  }

  type Clusters = map<nat, seq<nat>>

  /** Every grouped window is listed once, in the cluster of its root. */
  ghost predicate Grouped(clusters: Clusters, done: set<nat>, parent: Parents, levels: map<nat, nat>, top: nat)
    requires Climbs(parent, levels, top)
  {
    && ListsFine(clusters)
    && InTheirClusters(clusters, done, parent, levels, top)
    && (forall p: nat :: p in done ==> GroupedAt(clusters, parent, levels, top, p))
  }

  ghost predicate ListsFine(clusters: Clusters) {
    forall r: nat :: r in clusters ==> clusters[r] != [] && Distinct(clusters[r])
  }

  ghost predicate InTheirClusters(clusters: Clusters, done: set<nat>, parent: Parents, levels: map<nat, nat>, top: nat)
    requires Climbs(parent, levels, top)
  {
    forall r: nat, p: nat :: r in clusters && p in clusters[r] ==> p in done && Root(parent, levels, top, p) == r
  }

  ghost predicate GroupedAt(clusters: Clusters, parent: Parents, levels: map<nat, nat>, top: nat, p: nat)
    requires Climbs(parent, levels, top)
  {
    Root(parent, levels, top, p) in clusters && p in clusters[Root(parent, levels, top, p)]
  }

  lemma {:induction false} NoRepeatsAppend(s: seq<nat>, x: nat)
    requires Distinct(s) && x !in s
    ensures Distinct(s + [x])
  {
  }

  method GroupByRoot(uf: UnionFind, matched: set<nat>) returns (clusters: Clusters)
    requires uf.Valid()
    modifies uf
    ensures uf.Valid() && uf.links == old(uf.links) && Grouped(clusters, matched, uf.parent, uf.levels, uf.top)
  {
    clusters := map[];
    var todo := matched;
    while todo != {}
      invariant uf.Valid() && uf.links == old(uf.links) && todo <= matched && Grouped(clusters, matched - todo, uf.parent, uf.levels, uf.top)
      decreases todo
    {
      var pos :| pos in todo;
      clusters := GroupOne(uf, clusters, matched - todo, pos);
      assert matched - todo + {pos} == matched - (todo - {pos});
      todo := todo - {pos};
    }
    assert matched - {} == matched;
  }

  method GroupOne(uf: UnionFind, clusters0: Clusters, ghost done: set<nat>, pos: nat) returns (clusters: Clusters)
    requires uf.Valid() && Grouped(clusters0, done, uf.parent, uf.levels, uf.top) && pos !in done
    modifies uf`parent
    ensures uf.Valid() && Grouped(clusters, done + {pos}, uf.parent, uf.levels, uf.top)
  {
    ghost var before := uf.parent;
    var root := uf.Lookup(pos);
    GroupedStill(clusters0, done, before, uf.parent, uf.levels, uf.top);
    var list := if root in clusters0 then clusters0[root] else [];
    GroupNext(clusters0, done, uf.parent, uf.levels, uf.top, pos);
    clusters := clusters0[root := list + [pos]];
  }

  /** Compressing paths regroups nothing. */
  lemma {:induction false} GroupedStill(clusters: Clusters, done: set<nat>, p1: Parents, p2: Parents, levels: map<nat, nat>, top: nat)
    requires Climbs(p1, levels, top) && Climbs(p2, levels, top) && SameRoots(p1, p2, levels, top)
    requires Grouped(clusters, done, p1, levels, top)
    ensures Grouped(clusters, done, p2, levels, top)
  {
  }

  lemma {:induction false} GroupNext(clusters: Clusters, done: set<nat>, parent: Parents, levels: map<nat, nat>, top: nat, pos: nat)
    requires Climbs(parent, levels, top) && Grouped(clusters, done, parent, levels, top) && pos !in done
    ensures var root := Root(parent, levels, top, pos);
      Grouped(clusters[root := (if root in clusters then clusters[root] else []) + [pos]], done + {pos}, parent, levels, top)
  {
    var root := Root(parent, levels, top, pos);
    var list := if root in clusters then clusters[root] else [];
    GroupNextMembers(clusters, done, parent, levels, top, pos);
    GroupNextLists(clusters, root, list, pos);
    forall p: nat | p in done + {pos} ensures GroupedAt(clusters[root := list + [pos]], parent, levels, top, p) {
      GroupNextAt(clusters, done, parent, levels, top, pos, p);
    }
  }

  lemma {:induction false} GroupNextLists(clusters: Clusters, root: nat, list: seq<nat>, pos: nat)
    requires ListsFine(clusters) && list == (if root in clusters then clusters[root] else []) && pos !in list
    ensures ListsFine(clusters[root := list + [pos]])
  {
    NoRepeatsAppend(list, pos);
  }

  lemma {:induction false} GroupNextMembers(clusters: Clusters, done: set<nat>, parent: Parents, levels: map<nat, nat>, top: nat, pos: nat)
    requires Climbs(parent, levels, top) && Grouped(clusters, done, parent, levels, top) && pos !in done
    ensures var root := Root(parent, levels, top, pos);
      var list := if root in clusters then clusters[root] else [];
      InTheirClusters(clusters[root := list + [pos]], done + {pos}, parent, levels, top) && pos !in list
  {
    var root := Root(parent, levels, top, pos);
    var list := if root in clusters then clusters[root] else [];
    var now := clusters[root := list + [pos]];
    forall r: nat, p: nat | r in now && p in now[r] ensures p in done + {pos} && Root(parent, levels, top, p) == r {
      GroupNextMember(clusters, done, parent, levels, top, pos, r, p);
    }
  }

  lemma {:induction false} GroupNextMember(clusters: Clusters, done: set<nat>, parent: Parents, levels: map<nat, nat>, top: nat, pos: nat, r: nat, p: nat)
    requires Climbs(parent, levels, top) && Grouped(clusters, done, parent, levels, top)
    requires var root := Root(parent, levels, top, pos);
      var now := clusters[root := (if root in clusters then clusters[root] else []) + [pos]];
      r in now && p in now[r]
    ensures p in done + {pos} && Root(parent, levels, top, p) == r
  {
    assert p == pos || (r in clusters && p in clusters[r]);
  }

  lemma {:induction false} GroupNextAt(clusters: Clusters, done: set<nat>, parent: Parents, levels: map<nat, nat>, top: nat, pos: nat, p: nat)
    requires Climbs(parent, levels, top) && Grouped(clusters, done, parent, levels, top) && p in done + {pos}
    ensures var root := Root(parent, levels, top, pos);
      GroupedAt(clusters[root := (if root in clusters then clusters[root] else []) + [pos]], parent, levels, top, p)
  {
    assert p == pos || GroupedAt(clusters, parent, levels, top, p);
  }

  /**
   * Clustering is exact: a window is in some cluster iff another window has its hash, clusters do not overlap, and two
   * matched windows share a cluster iff a chain of equal-hash or consecutive-position links joins them.
   */
  ghost predicate Clustered(sig: Sig, hash: seq<string> -> nat, clusters: Clusters) {
    && (forall r: nat :: r in clusters ==> clusters[r] != [] && Distinct(clusters[r]))
    && (forall p: nat :: Matched(sig, hash, p) <==> InCluster(clusters, p))
    && NoOverlap(clusters)
    && (forall r: nat, p: nat, q: nat :: r in clusters && p in clusters[r] && Matched(sig, hash, q) ==>
        (q in clusters[r] <==> Linked(CloneLinks(sig, hash), p, q)))
  }

  ghost predicate NoOverlap(clusters: Clusters) {
    forall r: nat, s: nat :: r in clusters && s in clusters && r != s ==> Disjoint(clusters[r], clusters[s])
  }

  ghost predicate Disjoint(a: seq<nat>, b: seq<nat>) {
    forall p: nat :: p in a ==> p !in b
  }

  ghost predicate InCluster(clusters: Clusters, p: nat) {
    exists r: nat :: r in clusters && p in clusters[r]
  }

  lemma {:induction false} GroupsAreClusters(sig: Sig, hash: seq<string> -> nat, clusters: Clusters, matched: set<nat>, links: Links,
                          parent: Parents, levels: map<nat, nat>, top: nat)
    requires Climbs(parent, levels, top) && Exact(links, parent, levels, top) && Grouped(clusters, matched, parent, levels, top)
    requires AreMatched(sig, hash, matched)
    requires SameLinked(links, CloneLinks(sig, hash))
    ensures Clustered(sig, hash, clusters)
  {
    forall r: nat, s: nat | r in clusters && s in clusters && r != s ensures Disjoint(clusters[r], clusters[s]) {
      assert forall p: nat :: p in clusters[r] ==> Root(parent, levels, top, p) == r;
      assert forall p: nat :: p in clusters[s] ==> Root(parent, levels, top, p) == s;
    }
    forall p: nat ensures Matched(sig, hash, p) <==> InCluster(clusters, p) {
      if p in matched {
        assert p in clusters[Root(parent, levels, top, p)];
      }
    }
    forall r: nat, p: nat, q: nat | r in clusters && p in clusters[r] && Matched(sig, hash, q)
      ensures q in clusters[r] <==> Linked(CloneLinks(sig, hash), p, q)
    {
      assert Root(parent, levels, top, p) == r;
      assert Root(parent, levels, top, q) == r <==> Linked(links, p, q);
    }
  }

  method ClusterMatches(sig: Sig, hash: seq<string> -> nat) returns (clusters: Clusters)
    requires FilesFit(sig)
    ensures Clustered(sig, hash, clusters)
  {
    var byHash := CollectWindows(sig, hash);
    var uf := new UnionFind();
    var matched := LinkHashes(sig, hash, byHash, uf);
    ghost var some := uf.links;
    LinkConsecutive(sig, hash, uf, matched);
    clusters := GroupByRoot(uf, matched);
    ChainsAreExact(sig, hash, byHash, some, uf.links, matched);
    GroupsAreClusters(sig, hash, clusters, matched, uf.links, uf.parent, uf.levels, uf.top);
  }

  ghost predicate AreMatched(sig: Sig, hash: seq<string> -> nat, matched: set<nat>) {
    forall p: nat :: Matched(sig, hash, p) <==> p in matched
  }

  ghost predicate SameLinked(links: Links, wanted: Links) {
    forall p: nat, q: nat :: Linked(links, p, q) <==> Linked(wanted, p, q)
  }

  lemma {:induction false} ChainsAreExact(sig: Sig, hash: seq<string> -> nat, byHash: ByHash, some: Links, links: Links, matched: set<nat>)
    requires Collected(sig, hash, byHash, |sig| * POS)
    requires LinkedHashes(sig, hash, byHash, byHash.Keys, some, matched) && some <= links
    requires NextLinked(matched, matched, links) && OnlyCloneLinks(sig, hash, links)
    ensures AreMatched(sig, hash, matched) && SameLinked(links, CloneLinks(sig, hash))
  {
    forall p: nat ensures Matched(sig, hash, p) <==> p in matched {
      if Matched(sig, hash, p) {
        AllMatchedFound(sig, hash, byHash, some, matched, p);
      }
    }
    forall p: nat, q: nat ensures Linked(links, p, q) <==> Linked(CloneLinks(sig, hash), p, q) {
      SameChains(sig, hash, byHash, some, links, matched, p, q);
    }
  }
}
