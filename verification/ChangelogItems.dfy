/** The items of a subsection: how they are cut out of its lines, and what keeps their sequence. */
module ChangelogItems {
  import opened Collections
  import opened ChangelogText
  import opened ChangelogDocument

  // An item is known by its lines, without blank lines at the ends.
  type Key = seq<string>

  /** The first bullet from `i` on. */
  function NextBullet(texts: seq<string>, i: nat): (k: nat)
    requires i <= |texts|
    ensures i <= k <= |texts| && (k < |texts| ==> IsBullet(texts[k]))
    ensures forall j :: i <= j < k ==> !IsBullet(texts[j])
    decreases |texts| - i
  {
    if i == |texts| || IsBullet(texts[i]) then i else NextBullet(texts, i + 1)
  }

  /** The items: each reaches from its bullet to the next one; lines before the first bullet belong to none. */
  function Keys(texts: seq<string>): seq<Key>
    decreases |texts|
  {
    if texts == [] then []
    else if !IsBullet(texts[0]) then Keys(texts[1..])
    else
      var k := NextBullet(texts, 1);
      [TrimBlank(texts[..k])] + Keys(texts[k..])
  }

  predicate NoBullets(texts: seq<string>) {
    forall i :: 0 <= i < |texts| ==> !IsBullet(texts[i])
  }

  predicate BulletFirst(texts: seq<string>) {
    texts == [] || IsBullet(texts[0])
  }

  predicate AllBlank(texts: seq<string>) {
    forall i :: 0 <= i < |texts| ==> IsBlank(texts[i])
  }

  lemma {:induction false} BulletIsNotBlank(line: string)
    ensures IsBlank(line) ==> !IsBullet(line)
  {
    BlankTrimsAway(line);
  }

  lemma {:induction false} NextBulletIs(texts: seq<string>, i: nat, k: nat)
    requires i <= k <= |texts| && (k < |texts| ==> IsBullet(texts[k])) && NoBullets(texts[i..k])
    ensures NextBullet(texts, i) == k
    decreases k - i
  {
    if i < k {
      assert texts[i..k][0] == texts[i] && texts[i..k][1..] == texts[i + 1..k];
      NextBulletIs(texts, i + 1, k);
    }
  }

  /** One bullet, in front. */
  predicate IsChunk(chunk: seq<string>) {
    chunk != [] && IsBullet(chunk[0]) && NoBullets(chunk[1..])
  }

  lemma {:induction false} ItemThen(chunk: seq<string>, rest: seq<string>)
    requires IsChunk(chunk) && BulletFirst(rest)
    ensures Keys(chunk + rest) == [TrimBlank(chunk)] + Keys(rest)
  {
    var all, k := chunk + rest, |chunk|;
    assert all[1..k] == chunk[1..];
    NextBulletIs(all, 1, k);
    assert all[..k] == chunk && all[k..] == rest;
  }

  lemma {:induction false} FirstChunk(texts: seq<string>)
    requires texts != [] && IsBullet(texts[0])
    ensures var k := NextBullet(texts, 1); IsChunk(texts[..k]) && BulletFirst(texts[k..]) && texts == texts[..k] + texts[k..]
  {
    var k := NextBullet(texts, 1);
    forall i | 0 <= i < k - 1 ensures !IsBullet(texts[..k][1..][i]) {
      assert texts[..k][1..][i] == texts[i + 1];
    }
  }

  /** What follows starts a new item, so the items of the two parts stay apart. */
  lemma {:induction false} KeysConcat(a: seq<string>, b: seq<string>)
    requires BulletFirst(b)
    ensures Keys(a + b) == Keys(a) + Keys(b)
    decreases |a|
  {
    if a == [] {
      assert a + b == b;
    } else if !IsBullet(a[0]) {
      assert (a + b)[1..] == a[1..] + b;
      KeysConcat(a[1..], b);
    } else {
      var k := NextBullet(a, 1);
      FirstChunk(a);
      KeysConcat(a[k..], b);
      ChunkConcat(a[..k], a[k..], b);
    }
  }

  lemma {:induction false} ChunkConcat(chunk: seq<string>, rest: seq<string>, b: seq<string>)
    requires IsChunk(chunk) && BulletFirst(rest) && BulletFirst(b)
    requires Keys(rest + b) == Keys(rest) + Keys(b)
    ensures Keys(chunk + rest + b) == Keys(chunk + rest) + Keys(b)
  {
    ItemThen(chunk, rest);
    ItemThen(chunk, rest + b);
    Assoc(chunk, rest, b);
    Assoc([TrimBlank(chunk)], Keys(rest), Keys(b));
  }

  lemma {:induction false} NoKeys(texts: seq<string>)
    requires NoBullets(texts)
    ensures Keys(texts) == []
    decreases |texts|
  {
    if texts != [] {
      NoKeys(texts[1..]);
    }
  }

  lemma {:induction false} KeysSkip(front: seq<string>, texts: seq<string>)
    requires NoBullets(front)
    ensures Keys(front + texts) == Keys(texts)
    decreases |front|
  {
    if front == [] {
      assert front + texts == texts;
    } else {
      assert (front + texts)[1..] == front[1..] + texts;
      KeysSkip(front[1..], texts);
    }
  }

  lemma {:induction false} TrimBackBlank(texts: seq<string>, back: seq<string>)
    requires AllBlank(back)
    ensures TrimBack(texts + back) == TrimBack(texts)
    decreases |back|
  {
    if back == [] {
      assert texts + back == texts;
    } else {
      var n := |back| - 1;
      assert (texts + back)[..|texts| + n] == texts + back[..n];
      TrimBackBlank(texts, back[..n]);
    }
  }

  /** Blank lines at the end change no item. */
  lemma {:induction false} KeysBlankBack(texts: seq<string>, back: seq<string>)
    requires AllBlank(back)
    ensures Keys(texts + back) == Keys(texts)
    decreases |texts|
  {
    forall i | 0 <= i < |back| ensures !IsBullet(back[i]) {
      BulletIsNotBlank(back[i]);
    }
    if texts == [] {
      assert texts + back == back;
      NoKeys(back);
    } else if !IsBullet(texts[0]) {
      assert (texts + back)[1..] == texts[1..] + back;
      KeysBlankBack(texts[1..], back);
    } else {
      var k := NextBullet(texts, 1);
      FirstChunk(texts);
      if k == |texts| {
        assert texts[..k] == texts;
        LastItem(texts, back);
      } else {
        KeysBlankBack(texts[k..], back);
        ChunkBlankBack(texts[..k], texts[k..], back);
      }
    }
  }

  lemma {:induction false} ChunkBlankBack(chunk: seq<string>, rest: seq<string>, back: seq<string>)
    requires IsChunk(chunk) && rest != [] && BulletFirst(rest) && Keys(rest + back) == Keys(rest)
    ensures Keys(chunk + rest + back) == Keys(chunk + rest)
  {
    ItemThen(chunk, rest);
    ItemThen(chunk, rest + back);
    Assoc(chunk, rest, back);
  }

  lemma {:induction false} LastItem(chunk: seq<string>, back: seq<string>)
    requires AllBlank(back) && NoBullets(back) && IsChunk(chunk)
    ensures Keys(chunk + back) == Keys(chunk)
  {
    assert (chunk + back)[1..] == chunk[1..] + back;
    ItemThen(chunk, []);
    ItemThen(chunk + back, []);
    assert chunk + [] == chunk && chunk + back + [] == chunk + back;
    BulletIsNotBlank(chunk[0]);
    TrimBackBlank(chunk, back);
    assert TrimFront(chunk) == chunk && TrimFront(chunk + back) == chunk + back;
  }

  /** Neither do blank lines at both ends. */
  lemma {:induction false} KeysTrimmed(texts: seq<string>)
    ensures Keys(TrimBlank(texts)) == Keys(texts)
  {
    var front := TrimFront(texts);
    var own := TrimBack(front);
    FrontIsBlank(texts);
    BackIsBlank(front);
    var lead := texts[..|texts| - |front|];
    forall i | 0 <= i < |lead| ensures !IsBullet(lead[i]) {
      BulletIsNotBlank(lead[i]);
    }
    calc {
      Keys(texts);
      { assert texts == lead + front; }
      Keys(lead + front);
      { KeysSkip(lead, front); }
      Keys(front);
      { assert front == own + front[|own|..]; }
      Keys(own + front[|own|..]);
      { KeysBlankBack(own, front[|own|..]); }
      Keys(own);
    }
  }

  lemma {:induction false} FrontIsBlank(texts: seq<string>)
    ensures AllBlank(texts[..|texts| - |TrimFront(texts)|])
    decreases |texts|
  {
    if texts != [] && IsBlank(texts[0]) {
      FrontIsBlank(texts[1..]);
      var n := |texts| - |TrimFront(texts)|;
      assert texts[..n] == [texts[0]] + texts[1..][..n - 1];
    }
  }

  lemma {:induction false} BackIsBlank(texts: seq<string>)
    ensures AllBlank(texts[|TrimBack(texts)|..])
    decreases |texts|
  {
    if texts != [] && IsBlank(texts[|texts| - 1]) {
      var n := |texts| - 1;
      BackIsBlank(texts[..n]);
      assert texts[|TrimBack(texts)|..] == texts[..n][|TrimBack(texts)|..] + [texts[n]];
    }
  }

  // ----- single items -----

  /** What an item looks like: one bullet, in front, and no blank line at the end. */
  predicate IsKey(key: Key) {
    key != [] && IsBullet(key[0]) && NoBullets(key[1..]) && !IsBlank(key[|key| - 1])
  }

  lemma {:induction false} KeysAreKeys(texts: seq<string>)
    ensures forall i :: 0 <= i < |Keys(texts)| ==> IsKey(Keys(texts)[i])
    decreases |texts|
  {
    if texts == [] {
    } else if !IsBullet(texts[0]) {
      KeysAreKeys(texts[1..]);
    } else {
      var k := NextBullet(texts, 1);
      KeysAreKeys(texts[k..]);
      ChunkIsKey(texts[..k]);
    }
  }

  lemma {:induction false} TrimBackKeeps(texts: seq<string>, i: nat)
    requires i < |texts| && !IsBlank(texts[i])
    ensures |TrimBack(texts)| > i
    decreases |texts|
  {
    if IsBlank(texts[|texts| - 1]) {
      TrimBackKeeps(texts[..|texts| - 1], i);
    }
  }

  lemma {:induction false} ChunkIsKey(chunk: seq<string>)
    requires chunk != [] && IsBullet(chunk[0]) && NoBullets(chunk[1..])
    ensures IsKey(TrimBlank(chunk))
  {
    BulletIsNotBlank(chunk[0]);
    var key := TrimBack(chunk);
    assert TrimFront(chunk) == chunk;
    TrimBackKeeps(chunk, 0);
    assert forall i :: 0 < i < |key| ==> key[i] == chunk[1..][i - 1];
  }

  lemma {:induction false} OneKey(key: Key)
    requires IsKey(key)
    ensures Keys(key) == [key]
  {
    ItemThen(key, []);
    assert key + [] == key;
    BulletIsNotBlank(key[0]);
    assert TrimFront(key) == key && TrimBack(key) == key;
  }

  function Flatten(keys: seq<Key>): seq<string> {
    if keys == [] then [] else keys[0] + Flatten(keys[1..])
  }

  /** Writing the items one after the other and cutting them out again gives the items. */
  lemma {:induction false} KeysFlatten(keys: seq<Key>)
    requires forall i :: 0 <= i < |keys| ==> IsKey(keys[i])
    ensures Keys(Flatten(keys)) == keys && BulletFirst(Flatten(keys))
    decreases |keys|
  {
    if keys != [] {
      RestAreKeys(keys);
      KeysFlatten(keys[1..]);
      FlattenIs(keys);
      FirstFlattened(keys[0], Flatten(keys[1..]), keys[1..], Flatten(keys), keys);
    }
  }

  lemma {:induction false} RestAreKeys(keys: seq<Key>)
    requires keys != [] && forall i :: 0 <= i < |keys| ==> IsKey(keys[i])
    ensures IsKey(keys[0]) && forall i :: 0 <= i < |keys[1..]| ==> IsKey(keys[1..][i])
  {
  }

  lemma {:induction false} FlattenIs(keys: seq<Key>)
    requires keys != []
    ensures Flatten(keys) == keys[0] + Flatten(keys[1..]) && keys == [keys[0]] + keys[1..]
  {
  }

  lemma {:induction false} FirstFlattened(first: Key, flat: seq<string>, rest: seq<Key>, whole: seq<string>, keys: seq<Key>)
    requires whole == first + flat && keys == [first] + rest
    requires IsKey(first) && Keys(flat) == rest && BulletFirst(flat)
    ensures Keys(whole) == keys && BulletFirst(whole)
  {
    KeysConcat(first, flat);
    OneKey(first);
    assert (first + flat)[0] == first[0];
  }

  // ----- appending and compacting -----

  /** `appendSubsectionLines`: one blank line between the parts unless bullets meet. */
  function Appended(target: seq<string>, source: seq<string>): seq<string> {
    var s := TrimBlank(source);
    if s == [] then target else Joined(TrimBlank(target), s)
  }

  function Joined(e: seq<string>, s: seq<string>): seq<string>
    requires s != []
  {
    if e == [] then s else e + (if IsBullet(e[|e| - 1]) && IsBullet(s[0]) then [] else [""]) + s
  }

  /** How many empty lines stand between appended text and what it follows. */
  function GapSize(e: seq<string>, s: seq<string>): nat {
    if e == [] || s == [] || (IsBullet(e[|e| - 1]) && IsBullet(s[0])) then 0 else 1
  }

  lemma {:induction false} JoinedShape(e: seq<string>, s: seq<string>, gap: nat)
    requires s != [] && gap == GapSize(e, s)
    ensures var r := Joined(e, s);
      |r| == |e| + gap + |s| && r[..|e|] == e && r[|e| + gap..] == s && (gap == 1 ==> r[|e|] == "")
  {
    if e != [] {
      var middle := if IsBullet(e[|e| - 1]) && IsBullet(s[0]) then [] else [""];
      assert |middle| == gap && Joined(e, s) == e + middle + s;
    }
  }

  /** The text of both without outer blank lines, one empty line in between unless bullets meet. */
  lemma {:induction false} AppendedShape(target: seq<string>, source: seq<string>)
    requires TrimBlank(source) != []
    ensures var r, e, s := Appended(target, source), TrimBlank(target), TrimBlank(source);
      var gap := GapSize(e, s);
      |r| == |e| + gap + |s| && r[..|e|] == e && r[|e| + gap..] == s && (gap == 1 ==> r[|e|] == "")
  {
    JoinedShape(TrimBlank(target), TrimBlank(source), GapSize(TrimBlank(target), TrimBlank(source)));
  }

  /** Appending text that starts with a bullet appends its items. */
  lemma {:induction false} AppendedKeys(target: seq<string>, source: seq<string>)
    requires BulletFirst(TrimBlank(source))
    ensures Keys(Appended(target, source)) == Keys(target) + Keys(source)
  {
    KeysTrimmed(source);
    KeysTrimmed(target);
    AppendTrimmed(target, TrimBlank(target), TrimBlank(source));
  }

  lemma {:induction false} AppendTrimmed(target: seq<string>, e: seq<string>, s: seq<string>)
    requires Keys(e) == Keys(target) && BulletFirst(s)
    ensures Keys(if s == [] then target else Joined(e, s)) == Keys(target) + Keys(s)
  {
    if s == [] {
      NoKeys(s);
    } else {
      JoinKeys(e, s);
    }
  }

  lemma {:induction false} JoinKeys(e: seq<string>, s: seq<string>)
    requires s != [] && BulletFirst(s)
    ensures Keys(Joined(e, s)) == Keys(e) + Keys(s)
  {
    if e == [] {
      NoKeys(e);
    } else {
      JoinedKeys(e, if IsBullet(e[|e| - 1]) && IsBullet(s[0]) then [] else [""], s);
    }
  }

  lemma {:induction false} JoinedKeys(e: seq<string>, gap: seq<string>, s: seq<string>)
    requires BulletFirst(s) && IsPadding(gap)
    ensures Keys(e + gap + s) == Keys(e) + Keys(s)
  {
    KeysConcat(e + gap, s);
    KeysBlankBack(e, gap);
  }

  lemma {:induction false} AppendedFirst(target: seq<string>, source: seq<string>)
    requires BulletFirst(TrimBlank(source)) && BulletFirst(TrimBlank(target))
    ensures BulletFirst(TrimBlank(Appended(target, source)))
  {
    var s, e := TrimBlank(source), TrimBlank(target);
    TrimBlankIsTrimmed(source);
    TrimBlankIsTrimmed(target);
    if s != [] {
      if e == [] {
        TrimTrimmed(s);
      } else {
        var all := Appended(target, source);
        assert all[0] == e[0] && all[|all| - 1] == s[|s| - 1];
        TrimTrimmed(all);
      }
    }
  }

  function NonBlank(texts: seq<string>): seq<string> {
    if texts == [] then [] else (if IsBlank(texts[0]) then [] else [texts[0]]) + NonBlank(texts[1..])
  }

  /** `compactAdjacentListSpacing`: the bare items, when nothing but blank lines gets lost. */
  function Compact(texts: seq<string>): seq<string> {
    var t := TrimBlank(texts);
    var flat := Flatten(Keys(t));
    if t == [] then [] else if Keys(t) == [] then t else if NonBlank(t) == NonBlank(flat) then flat else t
  }

  /** Compacting keeps every item, and a leading bullet. */
  lemma {:induction false} CompactKeys(texts: seq<string>)
    ensures Keys(Compact(texts)) == Keys(texts)
    ensures BulletFirst(TrimBlank(texts)) ==> BulletFirst(Compact(texts))
    ensures IsTrimmed(Compact(texts))
    ensures Compact(texts) == [] <==> TrimBlank(texts) == []
  {
    var t := TrimBlank(texts);
    TrimBlankIsTrimmed(texts);
    KeysTrimmed(texts);
    KeysAreKeys(t);
    KeysFlatten(Keys(t));
    FlattenTrimmed(Keys(t));
  }

  lemma {:induction false} FlattenTrimmed(keys: seq<Key>)
    requires forall i :: 0 <= i < |keys| ==> IsKey(keys[i])
    ensures IsTrimmed(Flatten(keys)) && (keys != [] ==> Flatten(keys) != [])
    decreases |keys|
  {
    if keys != [] {
      FlattenTrimmed(keys[1..]);
      assert IsKey(keys[0]);
      BulletIsNotBlank(keys[0][0]);
    }
  }
}
