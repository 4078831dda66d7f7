/**
 object.go: a Riak object to and from the content message.  Secondary indexes are a multimap, sent
 as a flat list of pairs in the unspecified order in which Go ranges over a map, and grouped again
 on the way back.  Strings and byte slices hold the same bytes and are not told apart.
 */
module Objects {
  import opened Common

  datatype Pair = Pair(key: string, value: string)

  datatype Link = Link(bucket: string, key: string, tag: string)

  datatype Object = Object(
    bucketType: string, bucket: string, key: string, isTombstone: bool, value: Bytes,
    contentType: string, charset: string, contentEncoding: string, vTag: string, lastModified: int,
    userMeta: seq<Pair>, indexes: map<string, seq<string>>, links: seq<Link>, vClock: Bytes)

  /** time.Unix(seconds, nanoseconds), in nanoseconds. */
  function Unix(sec: int, nsec: int): int {
    sec * 1_000_000_000 + nsec
  }

  /** RpbContent */
  datatype Content = Content(
    value: Bytes, contentType: string, charset: string, contentEncoding: string, vtag: string,
    lastMod: int, lastModUsecs: int, deleted: bool, usermeta: seq<Pair>, indexes: seq<Pair>, links: seq<Link>)

  // ------------------------------------------------------------------------------------------
  // Pairs
  // ------------------------------------------------------------------------------------------

  /** The values listed under a name, in order. */
  function ValuesOf(ps: seq<Pair>, name: string): seq<string> {
    if ps == [] then []
    else ValuesOf(ps[..|ps| - 1], name) + if ps[|ps| - 1].key == name then [ps[|ps| - 1].value] else []
  }

  lemma ValuesAppend(ps: seq<Pair>, p: Pair, name: string)
    ensures ValuesOf(ps + [p], name) == ValuesOf(ps, name) + if p.key == name then [p.value] else []
  {
    assert (ps + [p])[..|ps|] == ps;
  }

  function ValuesIn(m: map<string, seq<string>>, name: string): seq<string> {
    if name in m then m[name] else []
  }

  /** The total length of the lists under `names`. */
  ghost function Total(m: map<string, seq<string>>, names: set<string>): nat
    requires names <= m.Keys
  {
    if names == {} then 0
    else
      var name :| name in names;
      |m[name]| + Total(m, names - {name})
  }

  /** The sum does not depend on the order of summation. */
  lemma {:induction false} TotalRemove(m: map<string, seq<string>>, names: set<string>, name: string)
    requires names <= m.Keys && name in names
    ensures Total(m, names) == |m[name]| + Total(m, names - {name})
    decreases |names|
  {
    var first :| first in names && Total(m, names) == |m[first]| + Total(m, names - {first});
    if first != name {
      TotalRemove(m, names - {first}, name);
      TotalRemove(m, names - {name}, first);
      assert names - {first} - {name} == names - {name} - {first};
    }
  }

  /** AddToIndex, and the same step in fromRpbContent: append to the list under a name. */
  function AddToIndex(m: map<string, seq<string>>, name: string, value: string): map<string, seq<string>> {
    if name !in m then m[name := [value]] else m[name := m[name] + [value]]
  }

  /** Some list of pairs that holds each index list, in its order, and nothing else. */
  ghost predicate Flattens(m: map<string, seq<string>>, ps: seq<Pair>) {
    forall name :: ValuesOf(ps, name) == ValuesIn(m, name)
  }

  /** The multimap of a list of pairs: the names that occur, each with its values in order. */
  ghost predicate Groups(ps: seq<Pair>, m: map<string, seq<string>>) {
    forall name :: (name in m <==> ValuesOf(ps, name) != []) && ValuesIn(m, name) == ValuesOf(ps, name)
  }

  // ------------------------------------------------------------------------------------------
  // Conversions
  // ------------------------------------------------------------------------------------------

  method CountIndexes(m: map<string, seq<string>>) returns (count: nat)
    ensures count == Total(m, m.Keys)
  {
    count := 0;
    var left := m.Keys;
    while left != {}
      invariant left <= m.Keys && count + Total(m, left) == Total(m, m.Keys)
      decreases |left|
    {
      var name :| name in left;
      TotalRemove(m, left, name);
      count := count + |m[name]|;
      left := left - {name};
    }
  }

  /** One index as pairs. */
  function PairsOf(name: string, values: seq<string>): (ps: seq<Pair>)
    ensures |ps| == |values|
  {
    if values == [] then [] else PairsOf(name, values[..|values| - 1]) + [Pair(name, values[|values| - 1])]
  }

  lemma {:induction false} ValuesAppendAll(ps: seq<Pair>, name: string, values: seq<string>, n: string)
    ensures ValuesOf(ps + PairsOf(name, values), n) == ValuesOf(ps, n) + if n == name then values else []
    decreases |values|
  {
    if values == [] {
      assert ps + PairsOf(name, values) == ps;
    } else {
      var init, last := values[..|values| - 1], values[|values| - 1];
      ValuesAppendAll(ps, name, init, n);
      ValuesAppend(ps + PairsOf(name, init), Pair(name, last), n);
      assert ps + PairsOf(name, values) == ps + PairsOf(name, init) + [Pair(name, last)];
      assert values == init + [last];
    }
  }

  /** One index list into the slots from `idx` on. */
  method FlattenOne(pairs: array<Pair>, idx0: nat, name: string, values: seq<string>) returns (idx: nat)
    requires idx0 + |values| <= pairs.Length
    modifies pairs
    ensures idx == idx0 + |values|
    ensures pairs[..idx] == old(pairs[..idx0]) + PairsOf(name, values)
  {
    idx := idx0;
    for i := 0 to |values|
      invariant idx == idx0 + i
      invariant pairs[..idx] == old(pairs[..idx0]) + PairsOf(name, values[..i])
    {
      ghost var before := pairs[..idx];
      pairs[idx] := Pair(name, values[i]);
      assert pairs[..idx + 1] == before + [Pair(name, values[i])];
      assert values[..i + 1][..i] == values[..i];
      idx := idx + 1;
    }
    assert values[..|values|] == values;
  }

  /** The pairs hold the lists of all indexes but those in `left`. */
  ghost predicate HoldsAllBut(m: map<string, seq<string>>, left: set<string>, ps: seq<Pair>) {
    forall n :: ValuesOf(ps, n) == if n in left then [] else ValuesIn(m, n)
  }

  lemma HoldsStep(m: map<string, seq<string>>, left: set<string>, ps: seq<Pair>, name: string)
    requires left <= m.Keys && name in left && HoldsAllBut(m, left, ps)
    ensures HoldsAllBut(m, left - {name}, ps + PairsOf(name, m[name]))
  {
    hide ValuesOf, PairsOf;
    forall n ensures ValuesOf(ps + PairsOf(name, m[name]), n) == if n in left - {name} then [] else ValuesIn(m, n) {
      ValuesAppendAll(ps, name, m[name], n);
    }
  }

  lemma HoldsEnds(m: map<string, seq<string>>)
    ensures HoldsAllBut(m, m.Keys, [])
    ensures forall ps :: HoldsAllBut(m, {}, ps) ==> Flattens(m, ps)
    ensures Total(m, {}) == 0
  {
  }

  /**
   The flattening loops: the slots counted first are exactly those filled, though the two loops may use
   different orders.
   */
  method FlattenIndexes(m: map<string, seq<string>>) returns (ps: seq<Pair>)
    ensures Flattens(m, ps) && |ps| == Total(m, m.Keys)
  {
    hide Total, HoldsAllBut, Flattens, PairsOf;
    var count := CountIndexes(m);
    var pairs := new Pair[count];
    var idx: nat := 0;
    var left := m.Keys;
    HoldsEnds(m);
    assert pairs[..0] == [];
    while left != {}
      invariant left <= m.Keys && idx + Total(m, left) == count == pairs.Length
      invariant HoldsAllBut(m, left, pairs[..idx])
      decreases |left|
    {
      var name :| name in left;
      TotalRemove(m, left, name);
      HoldsStep(m, left, pairs[..idx], name);
      idx := FlattenOne(pairs, idx, name, m[name]);
      left := left - {name};
    }
    assert pairs[..] == pairs[..idx];
    ps := pairs[..];
  }

  /** What any run of toRpbContent can produce. */
  ghost predicate ContentOf(o: Object, c: Content) {
    && c.value == o.value && c.contentType == o.contentType && c.charset == o.charset
    && c.contentEncoding == o.contentEncoding
    && c.vtag == "" && c.lastMod == 0 && c.lastModUsecs == 0 && !c.deleted
    && c.usermeta == o.userMeta && c.links == o.links && Flattens(o.indexes, c.indexes)
  }

  method CopyAll<T(0)>(xs: seq<T>) returns (ys: seq<T>)
    ensures ys == xs
  {
    var a := new T[|xs|];
    for i := 0 to |xs|
      invariant a[..i] == xs[..i]
    {
      a[i] := xs[i];
    }
    ys := a[..];
  }

  method ToRpbContent(o: Object) returns (c: Content)
    ensures ContentOf(o, c)
  {
    c := Content(o.value, o.contentType, o.charset, o.contentEncoding, "", 0, 0, false, [], [], []);
    if |o.indexes| > 0 {
      var indexes := FlattenIndexes(o.indexes);
      c := c.(indexes := indexes);
    }
    if |o.userMeta| > 0 {
      var usermeta := CopyAll(o.userMeta);
      c := c.(usermeta := usermeta);
    }
    if |o.links| > 0 {
      var links := CopyAll(o.links);
      c := c.(links := links);
    }
  }

  /** What fromRpbContent makes of a content, given the grouped indexes. */
  function ObjectOf(c: Content, indexes: map<string, seq<string>>): Object {
    var value := if c.deleted then [] else c.value;
    Object("", "", "", c.deleted, value, c.contentType, c.charset, c.contentEncoding, c.vtag,
           Unix(c.lastMod, c.lastModUsecs), c.usermeta, indexes, c.links, [])
  }

  method FromRpbContent(c: Content) returns (o: Object)
    ensures Groups(c.indexes, o.indexes) && o == ObjectOf(c, o.indexes)
    ensures o.isTombstone == c.deleted && (c.deleted ==> o.value == []) && (!c.deleted ==> o.value == c.value)
    ensures o.vTag == c.vtag && o.contentType == c.contentType && o.charset == c.charset
    ensures o.contentEncoding == c.contentEncoding && o.userMeta == c.usermeta && o.links == c.links
    ensures o.lastModified == c.lastMod * 1_000_000_000 + c.lastModUsecs
  {
    var userMeta := CopyAll(c.usermeta);
    var links := CopyAll(c.links);
    var indexes := map[];
    for i := 0 to |c.indexes|
      invariant Groups(c.indexes[..i], indexes)
    {
      var index := c.indexes[i];
      assert c.indexes[..i + 1] == c.indexes[..i] + [index];
      forall n
        ensures ValuesOf(c.indexes[..i + 1], n) ==
                ValuesOf(c.indexes[..i], n) + if index.key == n then [index.value] else []
      {
        ValuesAppend(c.indexes[..i], index, n);
      }
      indexes := AddToIndex(indexes, index.key, index.value);
    }
    assert c.indexes[..|c.indexes|] == c.indexes;
    o := ObjectOf(c, indexes).(userMeta := userMeta, links := links);
  }

  /**
   The microseconds of the modification time are taken for nanoseconds, so the time read is the time
   meant iff there are none; otherwise it is too early, by less than a second.
   */
  lemma LastModifiedIsExactIff(c: Content, indexes: map<string, seq<string>>)
    requires 0 <= c.lastModUsecs < 1_000_000
    ensures var read, meant := ObjectOf(c, indexes).lastModified, (c.lastMod * 1_000_000 + c.lastModUsecs) * 1000;
            && (read == meant <==> c.lastModUsecs == 0)
            && read <= meant < read + 1_000_000_000
  {
  }

  // ------------------------------------------------------------------------------------------
  // Round trip
  // ------------------------------------------------------------------------------------------

  function NonEmptyIndexes(m: map<string, seq<string>>): map<string, seq<string>> {
    map name | name in m && m[name] != [] :: m[name]
  }

  /** Grouping inverts flattening, for any order, up to empty lists. */
  lemma GroupInvertsFlatten(m: map<string, seq<string>>, ps: seq<Pair>, m1: map<string, seq<string>>)
    requires Flattens(m, ps) && Groups(ps, m1)
    ensures m1 == NonEmptyIndexes(m)
  {
    forall name
      ensures name in m1 <==> name in NonEmptyIndexes(m)
      ensures name in m1 ==> m1[name] == m[name]
    {
      assert ValuesIn(m1, name) == ValuesOf(ps, name) == ValuesIn(m, name);
    }
  }

  /**
   An object sent and read back keeps value, content type, charset, encoding, user metadata, links
   and every non-empty index with its order, whichever order the conversions choose.  What is not
   sent, the tombstone mark among it, comes back blank.
   */
  method RoundTrip(o: Object) returns (o1: Object)
    ensures o1 == o.(bucketType := "", bucket := "", key := "", vClock := [], vTag := "", lastModified := 0,
                     isTombstone := false, indexes := NonEmptyIndexes(o.indexes))
  {
    hide Flattens, Groups, NonEmptyIndexes;
    var c := ToRpbContent(o);
    o1 := FromRpbContent(c);
    GroupInvertsFlatten(o.indexes, c.indexes, o1.indexes);
  }
}
