/** The accumulating dictionary, the default accumulator of the reduce: a commutative monoid. */
module AccumDict {
  import opened Folds
  import opened Tasks

  /** `a += b` on dictionaries: new keys are copied, common keys are added. */
  function Merge<K, V>(add: (V, V) -> V, a: map<K, V>, b: map<K, V>): map<K, V> {
    map k | k in a.Keys + b.Keys ::
      if k !in a then b[k] else if k !in b then a[k] else add(a[k], b[k])
  }

  function MergeWith<K, V>(add: (V, V) -> V): (map<K, V>, map<K, V>) -> map<K, V> {
    (a: map<K, V>, b: map<K, V>) => Merge(add, a, b)
  }

  /** The right operand of `+=`: a dictionary, or something to add to every value. */
  datatype Addend<K(==), V> = Dictionary(dic: map<K, V>) | Scalar(v: V)

  /** `a += b`. */
  function PlusEquals<K, V>(add: (V, V) -> V): (map<K, V>, Addend<K, V>) -> map<K, V> {
    (a: map<K, V>, b: Addend<K, V>) =>
      match b
      case Dictionary(d) => Merge(add, a, d)
      case Scalar(v) => map k | k in a :: add(a[k], v)
  }

  class AccumDict<K(==), V> {
    var dic: map<K, V>
    const add: (V, V) -> V

    constructor (add: (V, V) -> V)
      ensures dic == map[] && this.add == add
    {
      this.add := add;
      dic := map[];
    }

    method IAdd(other: Addend<K, V>)
      modifies `dic
      ensures dic == PlusEquals<K, V>(add)(old(dic), other)
    {
      match other {
        case Dictionary(d) =>
          var todo := d.Keys;
          while todo != {}
            invariant todo <= d.Keys
            invariant dic == Merge(add, old(dic), d - todo)
            decreases todo
          {
            var k :| k in todo;
            if k !in dic {
              dic := dic[k := d[k]];
            } else {
              dic := dic[k := add(dic[k], d[k])];
            }
            todo := todo - {k};
          }
          assert d - {} == d;
        case Scalar(v) =>
          var todo := dic.Keys;
          while todo != {}
            invariant todo <= dic.Keys == old(dic).Keys
            invariant forall k :: k in dic ==> dic[k] == if k in todo then old(dic)[k] else add(old(dic)[k], v)
            decreases todo
          {
            var k :| k in todo;
            dic := dic[k := add(dic[k], v)];
            todo := todo - {k};
          }
      }
    }
  }

  /** What `+=` does to each key. */
  lemma {:induction false} PlusEqualsAt<K, V>(add: (V, V) -> V, a: map<K, V>, b: Addend<K, V>, k: K)
    ensures var r := PlusEquals<K, V>(add)(a, b);
      && (k in r <==> k in a || (b.Dictionary? && k in b.dic))
      && (b.Dictionary? && k in a && k in b.dic ==> r[k] == add(a[k], b.dic[k]))
      && (b.Dictionary? && k in a && k !in b.dic ==> r[k] == a[k])
      && (b.Dictionary? && k !in a && k in b.dic ==> r[k] == b.dic[k])
      && (b.Scalar? && k in a ==> r[k] == add(a[k], b.v))
  {
  }

  ghost predicate Commutative<V(!new)>(add: (V, V) -> V) {
    forall a, b :: add(a, b) == add(b, a)
  }

  ghost predicate Associative<V(!new)>(add: (V, V) -> V) {
    forall a, b, c :: add(add(a, b), c) == add(a, add(b, c))
  }

  /** Dictionaries with `+=` inherit associativity and commutativity from their values,
      and the empty dictionary is neutral. */
  lemma {:induction false} MergeIsMonoid<K(!new), V(!new)>(add: (V, V) -> V)
    requires Commutative(add) && Associative(add)
    ensures CommutativeMonoid(MergeWith<K, V>(add), map[])
  {
    var op := MergeWith<K, V>(add);
    forall a, b ensures op(a, b) == op(b, a) {
      assert Merge(add, a, b) == Merge(add, b, a);
    }
    forall a, b, c ensures op(op(a, b), c) == op(a, op(b, c)) {
      assert Merge(add, Merge(add, a, b), c) == Merge(add, a, Merge(add, b, c));
    }
    forall a ensures op(a, map[]) == a {
      assert Merge(add, a, map[]) == a;
    }
  }

  /** The default `reduce`: accumulate with `+=` from the empty dictionary, in order of arrival;
      the first exception is raised. */
  method ReduceDefault<K(==), V>(results: seq<Outcome<Addend<K, V>>>, add: (V, V) -> V) returns (r: Outcome<map<K, V>>)
    ensures r == FoldLeft(results, PlusEquals<K, V>(add), map[])
  {
    hide Merge;
    var acc := new AccumDict<K, V>(add);
    for i := 0 to |results|
      invariant acc.add == add
      invariant FoldLeft(results[i..], PlusEquals<K, V>(add), acc.dic) ==
        FoldLeft(results, PlusEquals<K, V>(add), map[])
    {
      if results[i].Raised? {
        return Raised;
      }
      ghost var before := acc.dic;
      acc.IAdd(results[i].v);
      assert acc.dic == PlusEquals<K, V>(add)(before, results[i].v);
    }
    r := Value(acc.dic);
  }

  function Dictionaries<K, V>(results: seq<Outcome<map<K, V>>>): (r: seq<Outcome<Addend<K, V>>>)
    ensures |r| == |results|
  {
    seq(|results|, i requires 0 <= i < |results| =>
      if results[i].Value? then Value(Dictionary(results[i].v)) else Raised)
  }

  lemma {:induction false} SameFold<K, V>(results: seq<Outcome<map<K, V>>>, add: (V, V) -> V, acc: map<K, V>)
    ensures FoldLeft(Dictionaries(results), PlusEquals<K, V>(add), acc) == FoldLeft(results, MergeWith<K, V>(add), acc)
  {
    hide Merge;
    if results != [] {
      assert Dictionaries(results)[1..] == Dictionaries(results[1..]);
      if results[0].Value? {
        SameFold(results[1..], add, Merge(add, acc, results[0].v));
      }
    }
  }

  /** For dictionaries whose values are added in any order, the default reduce does not depend on
      the order of arrival. */
  lemma {:induction false} DictionariesFold<K(!new), V(!new)>(
    results: seq<Outcome<map<K, V>>>, other: seq<Outcome<map<K, V>>>, add: (V, V) -> V)
    requires Commutative(add) && Associative(add) && multiset(results) == multiset(other)
    ensures FoldLeft(Dictionaries(results), PlusEquals<K, V>(add), map[]) ==
            FoldBy(other, o => o, MergeWith<K, V>(add), map[])
  {
    hide Commutative, Associative, Merge, CommutativeMonoid;
    MergeIsMonoid<K, V>(add);
    SameFold(results, add, map[]);
    LeftIsFold(results, MergeWith<K, V>(add), map[]);
    FoldPermutation(results, other, o => o, MergeWith<K, V>(add), map[]);
  }
}
