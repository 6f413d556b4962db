/** Exactly which promoted items are added under a title: those it does not have yet, each once, in order. */
module ChangelogGains {
  import opened Collections
  import opened ChangelogDocument
  import opened ChangelogItems
  import opened ChangelogPromotion

  /** The promoted items of one title, in order. */
  function TitleKeys(added: seq<(string, Key)>, title: string): seq<Key> {
    if added == [] then []
    else
      var n := |added| - 1;
      TitleKeys(added[..n], title) + if added[n].0 == title then [added[n].1] else []
  }

  /** Those of the keys that are not there yet, each once, in order. */
  function Gains(keys: seq<Key>, have: set<Key>): seq<Key> {
    if keys == [] then []
    else
      var n := |keys| - 1;
      Gains(keys[..n], have) + if keys[n] in have || keys[n] in keys[..n] then [] else [keys[n]]
  }

  /** The items of the last subsection of a title, into which promoted ones go. */
  function LastKeys(subs: seq<Subsection>, title: string): set<Key> {
    var j := LastWith(subs, title);
    if j < |subs| then set k | k in Keys(Texts(subs[j].lines)) else {}
  }

  lemma {:induction false} SameLast(subs: seq<Subsection>, title: string, j: nat)
    requires j < |subs| && subs[j].title == title && forall i :: j < i < |subs| ==> subs[i].title != title
    ensures LastWith(subs, title) == j
  {
  }

  lemma {:induction false} EnsuredLast(subs: seq<Subsection>, title: string)
    ensures var j := LastWith(subs, title);
      && j < |Ensured(subs, title)| && LastWith(Ensured(subs, title), title) == j
      && (set k | k in Keys(Texts(Ensured(subs, title)[j].lines))) == LastKeys(subs, title)
  {
    var j, with := LastWith(subs, title), Ensured(subs, title);
    SameLast(with, title, j);
    if j == |subs| {
      assert Texts(with[j].lines) == [];
    }
  }

  lemma {:induction false} EnsuredOthers(subs: seq<Subsection>, title: string, t: string)
    ensures LastKeys(Ensured(subs, title), t) == LastKeys(subs, t)
  {
    if t == title {
      EnsuredLast(subs, title);
    } else {
      var with, k := Ensured(subs, title), LastWith(subs, t);
      if k < |subs| {
        SameLast(with, t, k);
      }
    }
  }

  lemma {:induction false} InLast(subs: seq<Subsection>, j: nat, x: Key)
    requires j < |subs| && LastWith(subs, subs[j].title) == j
    ensures x in LastKeys(subs, subs[j].title) <==> x in Keys(Texts(subs[j].lines))
  {
  }

  /** A last subsection that has one item more. */
  lemma {:induction false} ReplacedOwn(subs: seq<Subsection>, j: nat, now: Subsection, key: Key)
    requires j < |subs| && LastWith(subs, subs[j].title) == j && now.title == subs[j].title
    requires Keys(Texts(now.lines)) == Keys(Texts(subs[j].lines)) + [key]
    ensures LastKeys(subs[j := now], now.title) == LastKeys(subs, now.title) + {key}
  {
    var after := subs[j := now];
    SameLast(after, now.title, j);
    forall x ensures x in LastKeys(after, now.title) <==> x in LastKeys(subs, now.title) || x == key {
      InLast(after, j, x);
      InLast(subs, j, x);
    }
  }

  lemma {:induction false} ReplacedOther(subs: seq<Subsection>, j: nat, now: Subsection, t: string)
    requires j < |subs| && now.title == subs[j].title && t != now.title
    ensures LastKeys(subs[j := now], t) == LastKeys(subs, t)
  {
    var k := LastWith(subs, t);
    if k < |subs| {
      SameLast(subs[j := now], t, k);
    }
  }

  lemma {:induction false} AppendToIs(with: seq<Subsection>, j: nat, key: Key) returns (now: Subsection)
    requires j < |with| && Stands(key)
    ensures AppendTo(with, j, key) == with[j := now] && now.title == with[j].title
    ensures Keys(Texts(now.lines)) == Keys(Texts(with[j].lines)) + [key]
  {
    AppendedKeys(Texts(with[j].lines), key);
    now := Subsection(with[j].title, Synthetic(Appended(Texts(with[j].lines), key)));
  }

  lemma {:induction false} AppendedLast(with: seq<Subsection>, j: nat, key: Key, t: string)
    requires j < |with| && LastWith(with, with[j].title) == j && Stands(key)
    ensures LastKeys(AppendTo(with, j, key), t) == LastKeys(with, t) + if t == with[j].title then {key} else {}
  {
    var now := AppendToIs(with, j, key);
    if t == with[j].title {
      ReplacedOwn(with, j, now, key);
    } else {
      ReplacedOther(with, j, now, t);
    }
  }

  /** What adding an item makes of the items under a title, and of those of its last subsection. */
  ghost predicate Gained(subs: seq<Subsection>, after: seq<Subsection>, title: string, key: Key, had: bool, t: string) {
    && KeysUnder(after, t) == KeysUnder(subs, t) + (if t == title && !had then [key] else [])
    && LastKeys(after, t) == LastKeys(subs, t) + (if t == title then {key} else {})
  }

  lemma {:induction false} AppendGains(with: seq<Subsection>, j: nat, key: Key, t: string)
    requires j < |with| && LastWith(with, with[j].title) == j && Stands(key)
    ensures Gained(with, AppendTo(with, j, key), with[j].title, key, false, t)
  {
    AppendToKeys(with, j, key, t);
    AppendedLast(with, j, key, t);
    OneKeyMore(KeysUnder(with, t), Keys(key), key, t == with[j].title);
  }

  lemma {:induction false} OneKeyMore(before: seq<Key>, keys: seq<Key>, key: Key, own: bool)
    requires keys == [key]
    ensures before + (if own then keys else []) == before + if own then [key] else []
  {
  }

  lemma {:induction false} AddItemIs(subs: seq<Subsection>, title: string, key: Key)
    ensures var j, with := LastWith(subs, title), Ensured(subs, title);
      && j < |with| && LastWith(with, title) == j && with[j].title == title
      && AddItem(subs, title, key) == if key in LastKeys(subs, title) then with else AppendTo(with, j, key)
  {
    EnsuredLast(subs, title);
    InLast(Ensured(subs, title), LastWith(subs, title), key);
  }

  lemma {:induction false} GainedFrom(subs: seq<Subsection>, with: seq<Subsection>, after: seq<Subsection>, title: string, key: Key, had: bool, t: string)
    requires KeysUnder(with, t) == KeysUnder(subs, t) && LastKeys(with, t) == LastKeys(subs, t)
    requires if had then after == with && key in LastKeys(with, title) else Gained(with, after, title, key, had, t)
    ensures Gained(subs, after, title, key, had, t)
  {
  }

  /** Adding an item to a title that has it changes nothing under any title, otherwise it is added behind the others. */
  lemma {:induction false} AddItemGains(subs: seq<Subsection>, title: string, key: Key, t: string)
    requires IsKey(key)
    ensures Gained(subs, AddItem(subs, title, key), title, key, key in LastKeys(subs, title), t)
  {
    var j, with, had := LastWith(subs, title), Ensured(subs, title), key in LastKeys(subs, title);
    KeyStands(key);
    AddItemIs(subs, title, key);
    EnsuredKeys(subs, title, t);
    EnsuredOthers(subs, title, t);
    EnsuredOthers(subs, title, title);
    if !had {
      AppendGains(with, j, key, t);
    }
    GainedFrom(subs, with, AddItem(subs, title, key), title, key, had, t);
  }

  /** Adding all of them adds, under every title, exactly the new ones. */
  lemma {:induction false} AddAllGains(subs: seq<Subsection>, added: seq<(string, Key)>, t: string)
    requires AreKeys(added)
    ensures KeysUnder(AddAll(subs, added), t) == KeysUnder(subs, t) + Gains(TitleKeys(added, t), LastKeys(subs, t))
    ensures LastKeys(AddAll(subs, added), t) == LastKeys(subs, t) + set k | k in TitleKeys(added, t)
    decreases |added|
  {
    if added != [] {
      var n := |added| - 1;
      AddAllGains(subs, added[..n], t);
      AddItemGains(AddAll(subs, added[..n]), added[n].0, added[n].1, t);
      AllGainsNext(subs, AddAll(subs, added[..n]), AddAll(subs, added), TitleKeys(added[..n], t), added[n].0, added[n].1, t);
    }
  }

  lemma {:induction false} AllGainsNext(subs: seq<Subsection>, before: seq<Subsection>, after: seq<Subsection>, keys: seq<Key>,
    title: string, key: Key, t: string)
    requires KeysUnder(before, t) == KeysUnder(subs, t) + Gains(keys, LastKeys(subs, t))
    requires LastKeys(before, t) == LastKeys(subs, t) + set k | k in keys
    requires Gained(before, after, title, key, key in LastKeys(before, title), t)
    ensures var more := keys + if title == t then [key] else [];
      && KeysUnder(after, t) == KeysUnder(subs, t) + Gains(more, LastKeys(subs, t))
      && LastKeys(after, t) == LastKeys(subs, t) + set k | k in more
  {
    var own, have := title == t, LastKeys(subs, t);
    var extra := if own && key !in have && key !in keys then [key] else [];
    GainsNext(keys, have, key, own);
    Assoc(KeysUnder(subs, t), Gains(keys, have), extra);
  }

  lemma {:induction false} GainsNext(keys: seq<Key>, have: set<Key>, key: Key, own: bool)
    ensures var more := keys + if own then [key] else [];
      && Gains(more, have) == Gains(keys, have) + (if own && key !in have && key !in keys then [key] else [])
      && (set k | k in more) == (set k | k in keys) + if own then {key} else {}
  {
    var more := keys + if own then [key] else [];
    if own {
      assert more[..|keys|] == keys;
    } else {
      assert more == keys;
    }
  }

  /** What is gained is new, and nothing is gained twice. */
  lemma {:induction false} GainsAreNew(keys: seq<Key>, have: set<Key>)
    ensures Distinct(Gains(keys, have))
    ensures forall k :: k in Gains(keys, have) <==> k in keys && k !in have
    decreases |keys|
  {
    if keys != [] {
      var n := |keys| - 1;
      GainsAreNew(keys[..n], have);
      assert keys == keys[..n] + [keys[n]];
    }
  }

  lemma {:induction false} TitleKeysAre(added: seq<(string, Key)>, title: string, key: Key)
    ensures key in TitleKeys(added, title) <==> (title, key) in added
    decreases |added|
  {
    if added != [] {
      var n := |added| - 1;
      TitleKeysAre(added[..n], title, key);
      assert added == added[..n] + [added[n]];
    }
  }

  lemma {:induction false} LastAreUnder(subs: seq<Subsection>, title: string, key: Key)
    requires key in LastKeys(subs, title)
    ensures key in KeysUnder(subs, title)
  {
    KeysWithin(subs, LastWith(subs, title));
  }
}
