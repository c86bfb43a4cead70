/** The watch list: items naming a kind, a namespace and a workload, and the lookup sets built from them. */
module Watch {
  import opened Wrappers
  import opened Text

  /** One entry of the watch list; `kind` is absent when the entry does not give one. */
  datatype WatchItem = WatchItem(kind: Option<string>, namespace: string, name: string)

  /** A `(namespace, name)` pair. */
  type Pair = (string, string)

  /** The lower-cased kind an item is filed under; a missing or empty kind means "Deployment". */
  function KindKey(item: WatchItem): (k: string)
    ensures item.kind == None || item.kind == Some("") ==> k == "deployment"
    ensures item.kind != None && item.kind != Some("") ==> k == Lower(item.kind.value)
  {
    var raw := if item.kind == None || item.kind == Some("") then "Deployment" else item.kind.value;
    Lower(raw)
  }

  function PairOf(item: WatchItem): Pair {
    (item.namespace, item.name)
  }

  /**
   * The kind-to-pairs lookup after the items have been added one by one in
   * order, each pair into the set of its kind (created empty on first use).
   */
  function PairsByKind(items: seq<WatchItem>): (m: map<string, set<Pair>>)
    ensures forall k :: k in m ==> m[k] != {}
    decreases |items|
  {
    if items == [] then map[]
    else
      var m := PairsByKind(items[..|items| - 1]);
      var item := items[|items| - 1];
      var k := KindKey(item);
      m[k := (if k in m then m[k] else {}) + {PairOf(item)}]
  }

  /** Every namespace the watch list mentions. */
  function NamespacesOf(items: seq<WatchItem>): (ns: set<string>)
    ensures forall i :: 0 <= i < |items| ==> items[i].namespace in ns
    ensures items == [] ==> ns == {}
  {
    set i | 0 <= i < |items| :: items[i].namespace
  }

  /** Some item is filed under kind `k`. */
  ghost predicate MentionsKind(items: seq<WatchItem>, k: string) {
    exists i :: 0 <= i < |items| && KindKey(items[i]) == k
  }

  /** Some item filed under kind `k` names the pair `p`. */
  ghost predicate Lists(items: seq<WatchItem>, k: string, p: Pair) {
    exists i :: 0 <= i < |items| && KindKey(items[i]) == k && PairOf(items[i]) == p
  }

  /** A kind has an entry in the lookup iff some item is filed under it, and that entry is never empty. */
  lemma {:induction false} PairsByKindDomain(items: seq<WatchItem>, k: string)
    ensures k in PairsByKind(items) <==> MentionsKind(items, k)
    ensures k in PairsByKind(items) ==> PairsByKind(items)[k] != {}
    decreases |items|
  {
    if items != [] {
      var front := items[..|items| - 1];
      var last := items[|items| - 1];
      PairsByKindDomain(front, k);
      if MentionsKind(front, k) {
        var i :| 0 <= i < |front| && KindKey(front[i]) == k;
        assert items[i] == front[i];
      }
      if MentionsKind(items, k) && KindKey(last) != k {
        var i :| 0 <= i < |items| && KindKey(items[i]) == k;
        assert front[i] == items[i];
      }
    }
  }

  /** The entry of a kind holds exactly the pairs of the items filed under that kind. */
  lemma {:induction false} PairsByKindContents(items: seq<WatchItem>, k: string, p: Pair)
    ensures (k in PairsByKind(items) && p in PairsByKind(items)[k]) <==> Lists(items, k, p)
    decreases |items|
  {
    if items != [] {
      var front := items[..|items| - 1];
      var last := items[|items| - 1];
      var m := PairsByKind(front);
      assert PairsByKind(items) == m[KindKey(last) := (if KindKey(last) in m then m[KindKey(last)] else {}) + {PairOf(last)}];
      PairsByKindContents(front, k, p);
      if Lists(front, k, p) {
        var i :| 0 <= i < |front| && KindKey(front[i]) == k && PairOf(front[i]) == p;
        assert items[i] == front[i];
      }
      if Lists(items, k, p) && !(KindKey(last) == k && PairOf(last) == p) {
        var i :| 0 <= i < |items| && KindKey(items[i]) == k && PairOf(items[i]) == p;
        assert front[i] == items[i];
      }
    }
  }

  /** The namespace of every filed pair is also a watched namespace. */
  lemma FiledNamespaceIsWatched(items: seq<WatchItem>, k: string, p: Pair)
    requires k in PairsByKind(items) && p in PairsByKind(items)[k]
    ensures p.0 in NamespacesOf(items)
  {
  }

  /**
   * The watch decision stated on the list itself: when some item is filed
   * under the lower-cased `kind`, the pair must be listed for that kind;
   * otherwise any item in the namespace admits it.
   */
  ghost predicate WatchListAdmits(items: seq<WatchItem>, kind: string, namespace: string, name: string) {
    var k := Lower(kind);
    if MentionsKind(items, k) then Lists(items, k, (namespace, name))
    else exists i :: 0 <= i < |items| && items[i].namespace == namespace
  }
}
