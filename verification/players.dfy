/** The player directory of js/players.js: the id-keyed `playersData` object,
    the lookup of a player by id or name, the top-players selection, and the
    file's copy of `getOrdinalSuffix`. */
module Players {
  import opened Common
  import opened Domain
  import Sorting
  import Ordinal

  /** A JavaScript object keyed by player id: the entries together with the
      order in which `for … in`, `Object.values` and `Object.assign` visit
      the keys (see `JsOrdered`). */
  datatype Directory = Directory(keys: seq<string>, entries: map<string, Player>)

  /** Every entry is stored under its own id, as `acc[player.id] = player`
      does. */
  ghost predicate KeyedById(d: Directory) {
    forall k :: k in d.entries ==> d.entries[k].id == k
  }

  ghost predicate Wf(d: Directory) {
    && Distinct(d.keys)
    && (forall k :: k in d.entries <==> k in d.keys)
  }

  const Empty := Directory([], map[])

  /** An array index in the sense of ECMA-262 (section 6.1.7): the canonical
      decimal text of an integer below 2^32 - 1, such as "10" but not "010". */
  predicate IsIndexKey(k: string) {
    && |k| > 0
    && (forall i :: 0 <= i < |k| ==> IsDigit(k[i]))
    && (k[0] == '0' ==> |k| == 1)
    && DigitsValue(k) < 0xFFFF_FFFF
  }

  /** The order of an object's own keys (section 10.1.11.1 of ECMA-262):
      array indices first, in ascending numeric order, then the other
      string keys in the order they were created. Stated pairwise: whatever
      comes before an index key is an index key of no greater value. */
  predicate JsOrdered(keys: seq<string>) {
    forall i, j :: 0 <= i < j < |keys| && IsIndexKey(keys[j]) ==>
      IsIndexKey(keys[i]) && DigitsValue(keys[i]) <= DigitsValue(keys[j])
  }

  /** The keys that are not array indices, in order: the part of the key
      order that records creation order. */
  function Textual(keys: seq<string>): (r: seq<string>)
    ensures forall k :: k in r <==> k in keys && !IsIndexKey(k)
  {
    Filter(keys, NotIndexKey)
  }

  predicate NotIndexKey(k: string) {
    !IsIndexKey(k)
  }

  /** The number of leading keys that are array indices not above `k`: where
      a new index key `k` goes. */
  function IndexSlot(keys: seq<string>, k: string): (p: nat)
    requires IsIndexKey(k)
    ensures p <= |keys|
    ensures forall i :: 0 <= i < p ==> IsIndexKey(keys[i]) && DigitsValue(keys[i]) <= DigitsValue(k)
    ensures p < |keys| ==> !IsIndexKey(keys[p]) || DigitsValue(keys[p]) > DigitsValue(k)
    decreases |keys|
  {
    if |keys| == 0 then 0
    else if IsIndexKey(keys[0]) && DigitsValue(keys[0]) <= DigitsValue(k) then
      var p := IndexSlot(keys[1..], k);
      assert forall i :: 1 <= i < p + 1 ==> keys[i] == keys[1..][i - 1];
      p + 1
    else 0
  }

  /** The key order after creating key `k`: a new index key is placed among
      the index keys by value; any other new key goes last. */
  function AddKey(keys: seq<string>, k: string): (r: seq<string>)
    requires Distinct(keys) && k !in keys
    ensures Distinct(r) && forall x :: x in r <==> x in keys || x == k
    ensures !IsIndexKey(k) ==> r == keys + [k]
    ensures IsIndexKey(k) ==>
              exists p :: 0 <= p <= |keys| && r == keys[..p] + [k] + keys[p..]
                          && (forall i :: 0 <= i < p ==> IsIndexKey(keys[i]) && DigitsValue(keys[i]) <= DigitsValue(k))
                          && (p < |keys| ==> !IsIndexKey(keys[p]) || DigitsValue(keys[p]) > DigitsValue(k))
  {
    if IsIndexKey(k) then
      var p := IndexSlot(keys, k);
      InsertKeepsDistinct(keys, k, p);
      keys[..p] + [k] + keys[p..]
    else
      keys + [k]
  }

  /** Adding a key keeps the key order JavaScript's, and appends the key to
      the non-index part exactly when it is not an index. */
  lemma AddKeyOrder(keys: seq<string>, k: string)
    requires Distinct(keys) && k !in keys
    ensures JsOrdered(keys) ==> JsOrdered(AddKey(keys, k))
    ensures Textual(AddKey(keys, k)) == Textual(keys) + (if !IsIndexKey(k) then [k] else [])
  {
    if IsIndexKey(k) {
      var p := IndexSlot(keys, k);
      InsertKeepsOrder(keys, k, p);
      InsertKeepsText(keys, k, p);
    } else {
      SnocKeepsOrder(keys, k);
    }
  }

  /** `obj[k] = v`: a key already present keeps its place in the key order;
      a new one is added as `AddKey` says. */
  function Set(d: Directory, k: string, v: Player): (r: Directory)
    requires Wf(d)
    ensures Wf(r)
    ensures r.entries == d.entries[k := v]
    ensures k in d.entries ==> r.keys == d.keys
    ensures k !in d.entries ==> r.keys == AddKey(d.keys, k)
  {
    Directory(if k in d.entries then d.keys else AddKey(d.keys, k), d.entries[k := v])
  }

  /** Setting a key keeps the key order JavaScript's; the non-index part
      grows only by a new non-index key. */
  lemma SetOrder(d: Directory, k: string, v: Player)
    requires Wf(d)
    ensures JsOrdered(d.keys) ==> JsOrdered(Set(d, k, v).keys)
    ensures Textual(Set(d, k, v).keys) == Textual(d.keys) + (if k !in d.entries && !IsIndexKey(k) then [k] else [])
  {
    if k !in d.entries {
      AddKeyOrder(d.keys, k);
    }
  }

  lemma InsertKeepsOrder(keys: seq<string>, k: string, p: nat)
    requires IsIndexKey(k) && p <= |keys|
    requires forall i :: 0 <= i < p ==> IsIndexKey(keys[i]) && DigitsValue(keys[i]) <= DigitsValue(k)
    requires p < |keys| ==> !IsIndexKey(keys[p]) || DigitsValue(keys[p]) > DigitsValue(k)
    ensures JsOrdered(keys) ==> JsOrdered(keys[..p] + [k] + keys[p..])
  {
    if JsOrdered(keys) {
      var r := keys[..p] + [k] + keys[p..];
      assert forall i :: 0 <= i < p ==> r[i] == keys[i];
      assert r[p] == k;
      assert forall i :: p < i < |r| ==> r[i] == keys[i - 1];
      forall i, j | 0 <= i < j < |r| && IsIndexKey(r[j])
        ensures IsIndexKey(r[i]) && DigitsValue(r[i]) <= DigitsValue(r[j])
      {
        if i == p {
          assert IsIndexKey(keys[p]) && DigitsValue(keys[p]) <= DigitsValue(r[j]) by {
            if j - 1 > p {
              assert keys[j - 1] == r[j];
            }
          }
        }
      }
    }
  }

  lemma InsertKeepsDistinct(keys: seq<string>, k: string, p: nat)
    requires Distinct(keys) && k !in keys && p <= |keys|
    ensures Distinct(keys[..p] + [k] + keys[p..])
    ensures forall x :: x in keys[..p] + [k] + keys[p..] <==> x in keys || x == k
  {
    var r := keys[..p] + [k] + keys[p..];
    forall i | 0 <= i < |r|
      ensures r[i] == if i < p then keys[i] else if i == p then k else keys[i - 1]
    {
    }
    forall i, j | 0 <= i < j < |r|
      ensures r[i] != r[j]
    {
      if i == p {
        assert r[j] == keys[j - 1];
      } else if j == p {
        assert r[i] == keys[i];
      }
    }
    forall x | x in keys
      ensures x in r
    {
      var i :| 0 <= i < |keys| && keys[i] == x;
      if i < p {
        assert r[i] == x;
      } else {
        assert r[i + 1] == x;
      }
    }
  }

  lemma InsertKeepsText(keys: seq<string>, k: string, p: nat)
    requires IsIndexKey(k) && p <= |keys|
    ensures Textual(keys[..p] + [k] + keys[p..]) == Textual(keys)
  {
    FilterAppend(keys[..p] + [k], keys[p..], NotIndexKey);
    FilterSnoc(keys[..p], k, NotIndexKey);
    FilterAppend(keys[..p], keys[p..], NotIndexKey);
    assert keys == keys[..p] + keys[p..];
  }

  lemma SnocKeepsOrder(keys: seq<string>, k: string)
    requires !IsIndexKey(k)
    ensures JsOrdered(keys) ==> JsOrdered(keys + [k])
    ensures Textual(keys + [k]) == Textual(keys) + [k]
  {
    if JsOrdered(keys) {
      assert forall i :: 0 <= i < |keys| ==> (keys + [k])[i] == keys[i];
    }
    FilterSnoc(keys, k, NotIndexKey);
  }

  /** An index key is the printed form of its value, so distinct index keys
      have distinct values and `JsOrdered` puts them in strictly ascending
      order. */
  lemma {:induction false} IndexKeyCanonical(k: string)
    requires IsIndexKey(k)
    ensures NatToString(DigitsValue(k)) == k
  {
    CanonicalDigits(k);
  }

  lemma {:induction false} CanonicalDigits(k: string)
    requires |k| > 0 && (forall i :: 0 <= i < |k| ==> IsDigit(k[i])) && (k[0] == '0' ==> |k| == 1)
    ensures NatToString(DigitsValue(k)) == k
    ensures |k| > 1 ==> DigitsValue(k) >= 10
    decreases |k|
  {
    var init := k[..|k| - 1];
    if |k| == 1 {
      assert DigitsValue(k) == DigitOf(k[0]) by {
        assert k[..0] == [];
      }
      assert [DigitChar(DigitOf(k[0]))] == k;
    } else {
      assert init[0] == k[0];
      CanonicalDigits(init);
      var n := DigitsValue(k);
      assert n == DigitsValue(init) * 10 + DigitOf(k[|k| - 1]);
      assert DigitsValue(init) >= 1 by {
        if |init| == 1 {
          assert k[..0] == [] && init[..0] == [];
          assert DigitsValue(init) == DigitOf(init[0]);
        }
      }
      assert n / 10 == DigitsValue(init) && n % 10 == DigitOf(k[|k| - 1]);
      assert k == init + [k[|k| - 1]];
    }
  }

  lemma IndexKeysDiffer(a: string, b: string)
    requires IsIndexKey(a) && IsIndexKey(b) && a != b
    ensures DigitsValue(a) != DigitsValue(b)
  {
    IndexKeyCanonical(a);
    IndexKeyCanonical(b);
  }

  /** The last player of `ps` carrying `id`, if any. */
  function LastWithId(ps: seq<Player>, id: string): (r: Option<Player>)
    ensures r.Some? ==> r.value.id == id && r.value in ps
    decreases |ps|
  {
    if |ps| == 0 then None
    else if ps[|ps| - 1].id == id then Some(ps[|ps| - 1])
    else LastWithId(ps[..|ps| - 1], id)
  }

  /** The ids of the players, in array order. */
  function Ids(ps: seq<Player>): (r: seq<string>)
    ensures |r| == |ps| && forall i :: 0 <= i < |ps| ==> r[i] == ps[i].id
  {
    seq(|ps|, i requires 0 <= i < |ps| => ps[i].id)
  }

  /** The keys of `ks` that are neither array indices nor in `seen`, each
      once, in the order of their first occurrence: the keys an assignment
      of `ks` appends after the existing non-index keys. */
  function AddedText(seen: set<string>, ks: seq<string>): (r: seq<string>)
    ensures Distinct(r)
    ensures forall x :: x in r <==> x in ks && x !in seen && !IsIndexKey(x)
    decreases |ks|
  {
    if |ks| == 0 then []
    else
      var init := ks[..|ks| - 1];
      var k := ks[|ks| - 1];
      SplitLast(ks);
      var r := AddedText(seen, init);
      if k !in seen && k !in init && !IsIndexKey(k) then
        DistinctSnoc(r, k);
        r + [k]
      else r
  }

  /** `players.reduce((acc, p) => { acc[p.id] = p; return acc; }, {})`. */
  function Collect(ps: seq<Player>): (r: Directory)
    ensures Wf(r)
    ensures forall k :: k in r.entries <==> LastWithId(ps, k).Some?
    ensures forall k :: k in r.entries ==> Some(r.entries[k]) == LastWithId(ps, k)
    decreases |ps|
  {
    if |ps| == 0 then Empty
    else Set(Collect(ps[..|ps| - 1]), ps[|ps| - 1].id, ps[|ps| - 1])
  }

  /** The reduce's keys come in the order JavaScript gives them: index ids
      ascending, then the other ids in order of first appearance. */
  lemma {:induction false} CollectOrder(ps: seq<Player>)
    ensures JsOrdered(Collect(ps).keys)
    ensures Textual(Collect(ps).keys) == AddedText({}, Ids(ps))
    decreases |ps|
  {
    if |ps| > 0 {
      var init := ps[..|ps| - 1];
      var p := ps[|ps| - 1];
      var prev := Collect(init);
      assert ps == init + [p];
      assert Collect(ps) == Set(prev, p.id, p);
      CollectOrder(init);
      SetOrder(prev, p.id, p);
      LastWithIdIn(init, p.id);
      assert p.id in prev.entries <==> p.id in Ids(init);
      IdsSnoc(init, p);
      AddedTextSnoc({}, Ids(init), p.id);
    } else {
      assert Ids(ps) == [];
    }
  }

  lemma IdsSnoc(ps: seq<Player>, p: Player)
    ensures Ids(ps + [p]) == Ids(ps) + [p.id]
  {
  }

  lemma AddedTextSnoc(seen: set<string>, ks: seq<string>, k: string)
    ensures AddedText(seen, ks + [k]) ==
              AddedText(seen, ks) + (if k !in seen && k !in ks && !IsIndexKey(k) then [k] else [])
  {
    assert (ks + [k])[..|ks|] == ks;
  }

  /** A player with a given id is found exactly when the id occurs. */
  lemma {:induction false} LastWithIdIn(ps: seq<Player>, id: string)
    ensures LastWithId(ps, id).Some? <==> id in Ids(ps)
    decreases |ps|
  {
    if |ps| > 0 {
      var init := ps[..|ps| - 1];
      LastWithIdIn(init, id);
      assert Ids(ps) == Ids(init) + [ps[|ps| - 1].id];
    }
  }

  /** `Object.assign(target, source)` restricted to the keys `ks` of the
      source, copied in order. */
  function AssignKeys(target: Directory, ks: seq<string>, source: map<string, Player>): (r: Directory)
    requires Wf(target)
    requires forall i :: 0 <= i < |ks| ==> ks[i] in source
    ensures Wf(r)
    ensures forall k :: k in r.entries <==> k in target.entries || k in ks
    ensures forall k :: k in ks ==> r.entries[k] == source[k]
    ensures forall k :: k in target.entries && k !in ks ==> r.entries[k] == target.entries[k]
    decreases |ks|
  {
    if |ks| == 0 then target
    else
      var init := ks[..|ks| - 1];
      var last := ks[|ks| - 1];
      var prev := AssignKeys(target, init, source);
      SplitLast(ks);
      var r := Set(prev, last, source[last]);
      assert forall k :: k in ks ==> r.entries[k] == source[k] by {
        forall k | k in ks
          ensures r.entries[k] == source[k]
        {
          if k != last {
            assert k in init;
            assert r.entries[k] == prev.entries[k];
          }
        }
      }
      r
  }

  /** `Object.assign` keeps the key order JavaScript's; the new non-index
      keys follow the old ones, in order of first appearance. */
  lemma {:induction false} AssignOrder(target: Directory, ks: seq<string>, source: map<string, Player>)
    requires Wf(target)
    requires forall i :: 0 <= i < |ks| ==> ks[i] in source
    ensures JsOrdered(target.keys) ==> JsOrdered(AssignKeys(target, ks, source).keys)
    ensures Textual(AssignKeys(target, ks, source).keys) == Textual(target.keys) + AddedText(target.entries.Keys, ks)
    decreases |ks|
  {
    if |ks| > 0 {
      var init := ks[..|ks| - 1];
      var last := ks[|ks| - 1];
      var prev := AssignKeys(target, init, source);
      AssignOrder(target, init, source);
      SetOrder(prev, last, source[last]);
      assert last in prev.entries <==> last in target.entries || last in init;
    }
  }

  /** `Filter(s, Unseen(seen))` keeps the elements outside `seen`. */
  function Unseen(seen: set<string>): string -> bool {
    x => x !in seen
  }

  /** Leaving out the keys already seen can be done last. */
  lemma {:induction false} AddedTextFilter(seen: set<string>, ks: seq<string>)
    ensures AddedText(seen, ks) == Filter(AddedText({}, ks), Unseen(seen))
    decreases |ks|
  {
    if |ks| > 0 {
      var init := ks[..|ks| - 1];
      var k := ks[|ks| - 1];
      AddedTextFilter(seen, init);
      FilterSnoc(AddedText({}, init), k, Unseen(seen));
    }
  }

  /** Without repetitions, the added keys are just the non-index ones. */
  lemma {:induction false} AddedTextOfDistinct(ks: seq<string>)
    requires Distinct(ks)
    ensures AddedText({}, ks) == Textual(ks)
    decreases |ks|
  {
    if |ks| > 0 {
      var init := ks[..|ks| - 1];
      var k := ks[|ks| - 1];
      DistinctPrefix(ks, |ks| - 1);
      AddedTextOfDistinct(init);
      SplitLast(ks);
      assert k !in init by {
        forall i | 0 <= i < |init|
          ensures init[i] != k
        {
          assert init[i] == ks[i];
        }
      }
      FilterSnoc(init, k, NotIndexKey);
    }
  }

  /** `initPlayers`: the players of a freshly loaded document are merged into
      the existing directory with `Object.assign`. */
  function Load(d: Directory, ps: seq<Player>): (r: Directory)
    requires Wf(d)
    ensures Wf(r)
    // each loaded id holds the last player in the array with that id
    ensures forall i :: 0 <= i < |ps| ==>
              ps[i].id in r.entries && Some(r.entries[ps[i].id]) == LastWithId(ps, ps[i].id)
    // ids absent from the array keep their previous entry
    ensures forall k :: k in d.entries && LastWithId(ps, k).None? ==>
              k in r.entries && r.entries[k] == d.entries[k]
    // nothing else appears
    ensures forall k :: k in r.entries ==> k in d.entries || LastWithId(ps, k).Some?
    // iteration order stays JavaScript's: index ids ascending first, then the
    // other existing keys, then the new non-index ids in array order
    ensures JsOrdered(d.keys) ==> JsOrdered(r.keys)
    ensures Textual(r.keys) == Textual(d.keys) + AddedText(d.entries.Keys, Ids(ps))
    ensures KeyedById(d) ==> KeyedById(r)
  {
    var c := Collect(ps);
    LastWithIdFound(ps);
    LoadOrder(d, ps);
    AssignKeys(d, c.keys, c.entries)
  }

  lemma LoadOrder(d: Directory, ps: seq<Player>)
    requires Wf(d)
    ensures var r := AssignKeys(d, Collect(ps).keys, Collect(ps).entries);
            && (JsOrdered(d.keys) ==> JsOrdered(r.keys))
            && Textual(r.keys) == Textual(d.keys) + AddedText(d.entries.Keys, Ids(ps))
  {
    var c := Collect(ps);
    AssignOrder(d, c.keys, c.entries);
    CollectOrder(ps);
    AddedTextFilter(d.entries.Keys, c.keys);
    AddedTextOfDistinct(c.keys);
    AddedTextFilter(d.entries.Keys, Ids(ps));
  }

  lemma {:induction false} LastWithIdFound(ps: seq<Player>)
    ensures forall i :: 0 <= i < |ps| ==> LastWithId(ps, ps[i].id).Some?
    decreases |ps|
  {
    if |ps| > 0 {
      LastWithIdFound(ps[..|ps| - 1]);
      forall i | 0 <= i < |ps|
        ensures LastWithId(ps, ps[i].id).Some?
      {
        if i < |ps| - 1 {
          assert ps[..|ps| - 1][i] == ps[i];
        }
      }
    }
  }

  /** `playersData[id] || null`: the directory lookup used by the fixture
      and notification modules. */
  function PlayerById(d: Directory, id: string): (r: Option<Player>)
    ensures r.Some? <==> id in d.entries
    ensures r.Some? ==> r.value == d.entries[id]
  {
    if id in d.entries then Some(d.entries[id]) else None
  }

  /** Does key `k` hold a player named `name`? */
  predicate Named(d: Directory, k: string, name: string) {
    k in d.entries && d.entries[k].name == name
  }

  /** The first key, in iteration order, whose player is called `name`. */
  function FirstNamed(d: Directory, keys: seq<string>, name: string): (r: Option<string>)
    ensures r.Some? ==> exists i :: 0 <= i < |keys| && keys[i] == r.value && Named(d, keys[i], name)
                                      && forall j :: 0 <= j < i ==> !Named(d, keys[j], name)
    ensures r.None? <==> forall i :: 0 <= i < |keys| ==> !Named(d, keys[i], name)
    decreases |keys|
  {
    if |keys| == 0 then None
    else if Named(d, keys[0], name) then Some(keys[0])
    else
      var r := FirstNamed(d, keys[1..], name);
      assert forall i :: 1 <= i < |keys| ==> keys[i] == keys[1..][i - 1];
      r
  }

  /** `getPlayerId(identifier)`: the identifier itself when it is a key,
      otherwise the first key whose player has that name, otherwise null. */
  function GetPlayerId(d: Directory, identifier: string): (r: Option<string>)
    requires Wf(d)
    // an id wins over a name, even when another player is called that
    ensures identifier in d.entries ==> r == Some(identifier)
    // a result is always a key of the directory
    ensures r.Some? ==> r.value in d.entries
    // null exactly when the identifier is neither an id nor a name
    ensures r.None? <==> identifier !in d.entries
                         && forall k :: k in d.entries ==> d.entries[k].name != identifier
    // the name fallback picks the first matching key in iteration order
    ensures identifier !in d.entries && r.Some? ==>
              exists i :: 0 <= i < |d.keys| && d.keys[i] == r.value && d.entries[r.value].name == identifier
                          && forall j :: 0 <= j < i ==> d.entries[d.keys[j]].name != identifier
  {
    if identifier in d.entries then Some(identifier)
    else
      var r := FirstNamed(d, d.keys, identifier);
      assert r.None? ==> forall k :: k in d.entries ==> !Named(d, k, identifier) by {
        if r.None? {
          forall k | k in d.entries
            ensures !Named(d, k, identifier)
          {
            var i :| 0 <= i < |d.keys| && d.keys[i] == k;
          }
        }
      }
      r
  }

  const Sam20 := Player("20", "Sam", "A", 1)
  const Sam10 := Player("10", "Sam", "A", 1)

  /** Numeric ids are visited in ascending order whatever the load order,
      so of two players with the same name the lower id is found. */
  lemma NumericIdsComeFirst()
    ensures var d := Load(Empty, [Sam20, Sam10]);
            |d.keys| > 0 && d.keys[0] == "10" && GetPlayerId(d, "Sam") == Some("10")
  {
    LoadSams();
    SamsInOrder(Load(Empty, [Sam20, Sam10]));
  }

  lemma SmallIndexKeys()
    ensures IsIndexKey("10") && DigitsValue("10") == 10
    ensures IsIndexKey("20") && DigitsValue("20") == 20
  {
    assert "10"[..1] == "1" && "1"[..0] == "";
    assert "20"[..1] == "2" && "2"[..0] == "";
  }

  lemma LoadSams()
    ensures var d := Load(Empty, [Sam20, Sam10]);
            && Wf(d) && JsOrdered(d.keys)
            && (forall k :: k in d.entries <==> k == "10" || k == "20")
            && d.entries["10"] == Sam10 && d.entries["20"] == Sam20
  {
    var ps := [Sam20, Sam10];
    SamsLastWithId();
    var d := Load(Empty, ps);
    assert JsOrdered(Empty.keys);
  }

  lemma SamsLastWithId()
    ensures LastWithId([Sam20, Sam10], "10") == Some(Sam10)
    ensures LastWithId([Sam20, Sam10], "20") == Some(Sam20)
    ensures forall k :: LastWithId([Sam20, Sam10], k).Some? ==> k == "10" || k == "20"
  {
    assert [Sam20, Sam10][..1] == [Sam20] && [Sam20][..0] == [];
  }

  lemma SamsInOrder(d: Directory)
    requires Wf(d) && JsOrdered(d.keys)
    requires forall k :: k in d.entries <==> k == "10" || k == "20"
    requires d.entries["10"] == Sam10 && d.entries["20"] == Sam20
    ensures |d.keys| > 0 && d.keys[0] == "10" && GetPlayerId(d, "Sam") == Some("10")
  {
    SmallIndexKeys();
    assert "10" in d.keys;
    var i :| 0 <= i < |d.keys| && d.keys[i] == "10";
    assert IsIndexKey(d.keys[0]) && DigitsValue(d.keys[0]) <= 10;
    assert d.keys[0] in d.entries;
    assert Named(d, "10", "Sam");
  }

  /** `Object.values(playersData)`, in key order. */
  function Values(d: Directory): (r: seq<Player>)
    requires Wf(d)
    ensures |r| == |d.keys|
    ensures forall i :: 0 <= i < |r| ==> r[i] == d.entries[d.keys[i]]
  {
    seq(|d.keys|, i requires 0 <= i < |d.keys| => d.entries[d.keys[i]])
  }

  /** The comparator `(a, b) => a.position - b.position`: `a` may precede `b`. */
  predicate PositionLe(a: Player, b: Player) {
    a.position <= b.position
  }

  lemma PositionLeIsTotalPreorder()
    ensures Sorting.TotalPreorder(PositionLe)
  {
  }

  /** All players, ascending by roster position (stable). */
  function ByPosition(d: Directory): (r: seq<Player>)
    requires Wf(d)
    ensures multiset(r) == multiset(Values(d))
    ensures Sorting.SortedBy(r, PositionLe)
  {
    PositionLeIsTotalPreorder();
    Sorting.SortBy(Values(d), PositionLe)
  }

  const TopCount := 6

  /** `renderTopPlayers`: the first six players by position. */
  function TopPlayers(d: Directory): (r: seq<Player>)
    requires Wf(d)
    ensures |r| == if |d.keys| < TopCount then |d.keys| else TopCount
    ensures forall i, j :: 0 <= i < j < |r| ==> r[i].position <= r[j].position
    ensures forall i :: 0 <= i < |r| ==> r[i] in d.entries.Values
    // each directory entry is shown at most once
    ensures multiset(r) <= multiset(Values(d))
    // whichever players are left out, none ranks strictly ahead of one shown
    ensures forall p, i :: p in multiset(Values(d)) - multiset(r) && 0 <= i < |r| ==> r[i].position <= p.position
  {
    var all := ByPosition(d);
    ValuesMembers(d);
    Leaders(all, Values(d), if |all| < TopCount then |all| else TopCount)
  }

  /** The first `n` players of `all`, a list of the players `vals` sorted by
      position: sorted, a sub-multiset of `vals`, and ranked no lower than
      anything left out, counted with multiplicity. */
  function Leaders(all: seq<Player>, vals: seq<Player>, n: nat): (r: seq<Player>)
    requires Sorting.SortedBy(all, PositionLe) && multiset(all) == multiset(vals) && n <= |all|
    ensures |r| == n
    ensures forall i, j :: 0 <= i < j < |r| ==> r[i].position <= r[j].position
    ensures forall i :: 0 <= i < |r| ==> r[i] in vals
    ensures multiset(r) <= multiset(vals)
    ensures forall p, i :: p in multiset(vals) - multiset(r) && 0 <= i < |r| ==> r[i].position <= p.position
  {
    PrefixOfSorted(all, vals, n);
    PrefixLeadsRest(all, vals, n);
    all[..n]
  }

  /** A prefix of a sorted permutation is sorted and drawn from `vals`. */
  lemma PrefixOfSorted(all: seq<Player>, vals: seq<Player>, n: nat)
    requires Sorting.SortedBy(all, PositionLe) && multiset(all) == multiset(vals) && n <= |all|
    ensures forall i, j :: 0 <= i < j < n ==> all[..n][i].position <= all[..n][j].position
    ensures forall i :: 0 <= i < n ==> all[..n][i] in vals
    ensures multiset(all[..n]) <= multiset(vals)
  {
    assert all == all[..n] + all[n..];
    forall i | 0 <= i < n
      ensures all[..n][i] in vals
    {
      assert all[i] in multiset(vals);
    }
    forall i, j | 0 <= i < j < n
      ensures all[..n][i].position <= all[..n][j].position
    {
      assert PositionLe(all[i], all[j]);
    }
  }

  /** What a prefix of a sorted permutation leaves out ranks no higher than
      anything in the prefix, counted with multiplicity. */
  lemma PrefixLeadsRest(all: seq<Player>, vals: seq<Player>, n: nat)
    requires Sorting.SortedBy(all, PositionLe) && multiset(all) == multiset(vals) && n <= |all|
    ensures forall p, i :: p in multiset(vals) - multiset(all[..n]) && 0 <= i < n ==> all[..n][i].position <= p.position
  {
    assert all == all[..n] + all[n..];
    assert multiset(vals) - multiset(all[..n]) == multiset(all[n..]);
    forall p, i | p in multiset(vals) - multiset(all[..n]) && 0 <= i < n
      ensures all[..n][i].position <= p.position
    {
      assert p in all[n..];
      var k :| 0 <= k < |all[n..]| && all[n..][k] == p;
      assert all[n + k] == p;
      assert PositionLe(all[i], all[n + k]);
    }
  }

  /** Every listed value is an entry of the directory. */
  lemma ValuesMembers(d: Directory)
    requires Wf(d)
    ensures forall x :: x in Values(d) ==> x in d.entries.Values
  {
    forall x | x in Values(d)
      ensures x in d.entries.Values
    {
      var j :| 0 <= j < |Values(d)| && Values(d)[j] == x;
      assert d.entries[d.keys[j]] == x;
    }
  }

  /** The copy of `getOrdinalSuffix` kept in js/players.js. */
  function OrdinalSuffix(num: int): string {
    var j := Ordinal.JsRem(num, 10);
    var k := Ordinal.JsRem(num, 100);
    if j == 1 && k != 11 then "st"
    else if j == 2 && k != 12 then "nd"
    else if j == 3 && k != 13 then "rd"
    else "th"
  }

  /** The copy agrees with js/main.js on every input. */
  lemma OrdinalSuffixCopyAgrees(num: int)
    ensures OrdinalSuffix(num) == Ordinal.Suffix(num)
  {
  }
}
