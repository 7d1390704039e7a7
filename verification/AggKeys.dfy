/** The keys of a reaggregation. */
module AggKeys {
  // `reagg_idxs` numbers the chosen tags in the order of the parent calculation, `agg_keys` lists
  // them in the order in which they are chosen.

  import opened Basics
  import opened Losses
  import opened Reaggregate

  ghost predicate Positions(sel: seq<nat>, n: nat) {
    forall i :: 0 <= i < |sel| ==> sel[i] < n
  }

  /** The keys: the tuples of values of the chosen tags, in the order of the product. */
  function AggKeys(shape: seq<nat>, sel: seq<nat>): seq<seq<nat>>
    requires Positions(sel, |shape|)
  {
    Product(Pick(shape, sel))
  }

  // ----- flat indices of picked coordinates

  lemma {:induction false} ProdLast(s: seq<nat>, n: nat)
    ensures Prod(s + [n]) == Prod(s) * n
  {
    if s == [] {
      assert [n][1..] == [];
    } else {
      assert (s + [n])[1..] == s[1..] + [n];
      ProdLast(s[1..], n);
      Associate(s[0], Prod(s[1..]), n);
    }
  }

  lemma {:induction false} Associate(a: nat, b: nat, c: nat)
    ensures a * (b * c) == (a * b) * c
  {
  }

  lemma {:induction false} RavelLast(idx: seq<nat>, x: nat, s: seq<nat>, n: nat)
    requires |idx| == |s|
    ensures Ravel(idx + [x], s + [n]) == Ravel(idx, s) * n + x
  {
    if s == [] {
      assert [x][1..] == [] && [n][1..] == [];
    } else {
      assert (idx + [x])[1..] == idx[1..] + [x] && (s + [n])[1..] == s[1..] + [n];
      RavelLast(idx[1..], x, s[1..], n);
      ProdLast(s[1..], n);
      Spread(idx[0], Prod(s[1..]), Ravel(idx[1..], s[1..]), n);
    }
  }

  lemma {:induction false} Spread(a: nat, p: nat, b: nat, n: nat)
    ensures (a * p + b) * n == a * (p * n) + b * n
  {
    Associate(a, p, n);
  }

  /** The flat index of the coordinates of c at some positions, the last running fastest. */
  function Code(c: seq<nat>, shape: seq<nat>, ps: seq<nat>): nat
    requires |c| == |shape| && Positions(ps, |shape|)
  {
    if ps == [] then 0
    else
      var m := |ps| - 1;
      Code(c, shape, ps[..m]) * shape[ps[m]] + c[ps[m]]
  }

  lemma {:induction false} CodeIsRavel(c: seq<nat>, shape: seq<nat>, ps: seq<nat>)
    requires |c| == |shape| && Positions(ps, |shape|)
    ensures Code(c, shape, ps) == Ravel(Pick(c, ps), Pick(shape, ps))
  {
    if ps != [] {
      var m := |ps| - 1;
      CodeIsRavel(c, shape, ps[..m]);
      assert Pick(c, ps) == Pick(c, ps[..m]) + [c[ps[m]]] && Pick(shape, ps) == Pick(shape, ps[..m]) + [shape[ps[m]]];
      RavelLast(Pick(c, ps[..m]), c[ps[m]], Pick(shape, ps[..m]), shape[ps[m]]);
    }
  }

  // ----- the kept positions

  /** The positions kept, in increasing order, when the first of the flags is for position d. */
  function Kept(keep: seq<bool>, d: nat): (ps: seq<nat>)
    ensures forall i :: 0 <= i < |ps| ==> d <= ps[i] < d + |keep|
  {
    if keep == [] then []
    else if keep[0] then [d] + Kept(keep[1..], d + 1)
    else Kept(keep[1..], d + 1)
  }

  lemma {:induction false} KeptIncreases(keep: seq<bool>, d: nat)
    ensures Increasing(Kept(keep, d))
  {
    if keep != [] {
      KeptIncreases(keep[1..], d + 1);
    }
  }

  lemma {:induction false} KeptAre(keep: seq<bool>, d: nat, p: nat)
    ensures p in Kept(keep, d) <==> d <= p < d + |keep| && keep[p - d]
  {
    if keep != [] {
      KeptAre(keep[1..], d + 1, p);
      assert p > d && p < d + |keep| ==> keep[1..][p - d - 1] == keep[p - d];
    }
  }

  lemma {:induction false} ProjectIsPick<X>(xs: seq<X>, keep: seq<bool>, d: nat)
    requires |xs| == d + |keep|
    ensures Project(xs[d..], keep) == Pick(xs, Kept(keep, d))
  {
    if keep != [] {
      ProjectIsPick(xs, keep[1..], d + 1);
      assert xs[d..][1..] == xs[d + 1..];
      var rest := Kept(keep[1..], d + 1);
      if keep[0] {
        assert Pick(xs, [d] + rest) == [xs[d]] + Pick(xs, rest);
      }
    }
  }

  /** The positions in ps of the tags with several values. */
  function Solid(ps: seq<nat>, shape: seq<nat>): (r: seq<nat>)
    requires Positions(ps, |shape|)
    ensures Positions(r, |shape|)
    ensures forall p: nat :: p in r <==> p in ps && shape[p] != 1
  {
    if ps == [] then []
    else
      var m := |ps| - 1;
      var front := Solid(ps[..m], shape);
      assert ps == ps[..m] + [ps[m]];
      if shape[ps[m]] == 1 then front else front + [ps[m]]
  }

  lemma {:induction false} SolidIncreasing(ps: seq<nat>, shape: seq<nat>)
    requires Positions(ps, |shape|) && Increasing(ps)
    ensures Increasing(Solid(ps, shape))
  {
    if ps != [] {
      var m := |ps| - 1;
      SolidIncreasing(ps[..m], shape);
      var front := Solid(ps[..m], shape);
      forall i | 0 <= i < |front| ensures front[i] < ps[m] {
        assert front[i] in ps[..m];
      }
    }
  }

  lemma {:induction false} CodeOne(c: seq<nat>, shape: seq<nat>, ps: seq<nat>)
    requires InShape(c, shape) && Positions(ps, |shape|) && ps != [] && shape[ps[|ps| - 1]] == 1
    ensures Code(c, shape, ps) == Code(c, shape, ps[..|ps| - 1])
    ensures Solid(ps, shape) == Solid(ps[..|ps| - 1], shape)
  {
    var m := |ps| - 1;
    assert c[ps[m]] == 0;
    assert Code(c, shape, ps) == Code(c, shape, ps[..m]) * shape[ps[m]] + c[ps[m]];
  }

  lemma {:induction false} CodeSnoc(c: seq<nat>, shape: seq<nat>, ps: seq<nat>, p: nat)
    requires |c| == |shape| && Positions(ps, |shape|) && p < |shape|
    ensures Code(c, shape, ps + [p]) == Code(c, shape, ps) * shape[p] + c[p]
  {
    assert (ps + [p])[..|ps|] == ps;
  }

  lemma {:induction false} SolidSnoc(ps: seq<nat>, shape: seq<nat>, p: nat)
    requires Positions(ps, |shape|) && p < |shape|
    ensures Solid(ps + [p], shape) == if shape[p] == 1 then Solid(ps, shape) else Solid(ps, shape) + [p]
  {
    assert (ps + [p])[..|ps|] == ps;
  }

  lemma {:induction false} CodeSeveral(c: seq<nat>, shape: seq<nat>, ps: seq<nat>)
    requires InShape(c, shape) && Positions(ps, |shape|) && ps != [] && shape[ps[|ps| - 1]] != 1
    requires Code(c, shape, ps[..|ps| - 1]) == Code(c, shape, Solid(ps[..|ps| - 1], shape))
    ensures Code(c, shape, ps) == Code(c, shape, Solid(ps, shape))
  {
    hide Code, Solid;
    var p, front := ps[|ps| - 1], ps[..|ps| - 1];
    assert ps == front + [p];
    SolidSnoc(front, shape, p);
    CodeSnoc(c, shape, front, p);
    CodeSnoc(c, shape, Solid(front, shape), p);
  }

  /** A tag with one value does not matter. */
  lemma {:induction false} CodeSolid(c: seq<nat>, shape: seq<nat>, ps: seq<nat>)
    requires InShape(c, shape) && Positions(ps, |shape|)
    ensures Code(c, shape, ps) == Code(c, shape, Solid(ps, shape))
  {
    if ps == [] {
    } else {
      hide Code, Solid;
      CodeSolid(c, shape, ps[..|ps| - 1]);
      if shape[ps[|ps| - 1]] == 1 {
        CodeOne(c, shape, ps);
      } else {
        CodeSeveral(c, shape, ps);
      }
    }
  }

  ghost predicate SameElements(a: seq<nat>, b: seq<nat>) {
    forall p: nat :: p in a <==> p in b
  }

  lemma {:induction false} SameLast(a: seq<nat>, b: seq<nat>)
    requires Increasing(a) && Increasing(b) && SameElements(a, b)
    ensures a == [] <==> b == []
    ensures a != [] && b != [] ==> a[|a| - 1] == b[|b| - 1]
  {
    assert a != [] ==> a[|a| - 1] in b;
    assert b != [] ==> b[|b| - 1] in a;
  }

  lemma {:induction false} FrontElements(a: seq<nat>)
    requires Increasing(a) && a != []
    ensures forall p: nat :: p in a[..|a| - 1] <==> p in a && p != a[|a| - 1]
  {
    assert a == a[..|a| - 1] + [a[|a| - 1]];
  }

  lemma {:induction false} SameIncreasing(a: seq<nat>, b: seq<nat>)
    requires Increasing(a) && Increasing(b) && SameElements(a, b)
    ensures a == b
  {
    SameLast(a, b);
    if a != [] {
      var m, n := |a| - 1, |b| - 1;
      FrontElements(a);
      FrontElements(b);
      forall p: nat ensures p in a[..m] <==> p in b[..n] {
        assert p in a <==> p in b;
      }
      SameIncreasing(a[..m], b[..n]);
      assert a == a[..m] + [a[m]] && b == b[..n] + [b[n]];
    }
  }

  // ----- codes determine the order of the positions

  lemma {:induction false} CodeZero(c: seq<nat>, shape: seq<nat>, ps: seq<nat>)
    requires |c| == |shape| && Positions(ps, |shape|) && forall i :: 0 <= i < |ps| ==> c[ps[i]] == 0
    ensures Code(c, shape, ps) == 0
  {
    if ps != [] {
      CodeZero(c, shape, ps[..|ps| - 1]);
    }
  }

  /** The tuple with coordinate 1 at position d. */
  function Unit(n: nat, d: nat): (c: seq<nat>)
    ensures |c| == n
  {
    seq(n, i => if i == d then 1 else 0)
  }

  ghost predicate SameCodes(shape: seq<nat>, p: seq<nat>, q: seq<nat>)
    requires Positions(p, |shape|) && Positions(q, |shape|)
  {
    forall c :: InShape(c, shape) ==> Code(c, shape, p) == Code(c, shape, q)
  }

  lemma {:induction false} NotOne(a: nat, n: nat)
    requires n > 1
    ensures a * n != 1
  {
    assert a > 0 ==> a * n >= n;
  }

  lemma {:induction false} CancelDigit(a: nat, b: nat, n: nat, x: nat)
    requires n > 0 && a * n + x == b * n + x
    ensures a == b
  {
    assert (a - b) * n == 0;
  }

  ghost predicate Several(ps: seq<nat>, shape: seq<nat>)
    requires Positions(ps, |shape|)
  {
    forall i :: 0 <= i < |ps| ==> shape[ps[i]] > 1
  }

  ghost predicate NoEmpty(shape: seq<nat>) {
    forall i :: 0 <= i < |shape| ==> shape[i] > 0
  }

  /** The code of a unit tuple: at least 1 at the last position, which is the only one with 1. */
  lemma {:induction false} UnitCode(shape: seq<nat>, ps: seq<nat>, d: nat)
    requires Positions(ps, |shape|) && Several(ps, shape) && NoEmpty(shape) && d < |shape| && shape[d] > 1
    ensures InShape(Unit(|shape|, d), shape)
    ensures var c := Code(Unit(|shape|, d), shape, ps);
      && (ps == [] ==> c == 0)
      && (ps != [] && ps[|ps| - 1] == d ==> c >= 1)
      && (ps != [] && ps[|ps| - 1] == d && Increasing(ps) ==> c == 1)
      && (ps != [] && ps[|ps| - 1] != d ==> c != 1)
  {
    if ps != [] {
      var m := |ps| - 1;
      var u := Unit(|shape|, d);
      NotOne(Code(u, shape, ps[..m]), shape[ps[m]]);
      if ps[m] == d && Increasing(ps) {
        CodeZero(u, shape, ps[..m]);
        assert 0 * shape[d] == 0;
      }
    }
  }

  lemma {:induction false} LastsAgree(shape: seq<nat>, p: seq<nat>, q: seq<nat>)
    requires Positions(p, |shape|) && Positions(q, |shape|) && Increasing(p)
    requires NoEmpty(shape) && Several(p, shape) && Several(q, shape)
    requires SameCodes(shape, p, q)
    ensures p == [] <==> q == []
    ensures p != [] && q != [] ==> p[|p| - 1] == q[|q| - 1]
  {
    hide Code, Unit;
    if p != [] {
      UnitCode(shape, p, p[|p| - 1]);
      UnitCode(shape, q, p[|p| - 1]);
    }
    if q != [] {
      UnitCode(shape, p, q[|q| - 1]);
      UnitCode(shape, q, q[|q| - 1]);
    }
  }

  lemma {:induction false} CodesDetermine(shape: seq<nat>, p: seq<nat>, q: seq<nat>)
    requires Positions(p, |shape|) && Positions(q, |shape|) && Increasing(p)
    requires NoEmpty(shape) && Several(p, shape) && Several(q, shape)
    requires SameCodes(shape, p, q)
    ensures p == q
  {
    LastsAgree(shape, p, q);
    if p != [] {
      var m, n := |p| - 1, |q| - 1;
      forall c | InShape(c, shape) ensures Code(c, shape, p[..m]) == Code(c, shape, q[..n]) {
        assert Code(c, shape, p) == Code(c, shape, q);
        CancelDigit(Code(c, shape, p[..m]), Code(c, shape, q[..n]), shape[p[m]], c[p[m]]);
      }
      CodesDetermine(shape, p[..m], q[..n]);
      assert p == p[..m] + [p[m]] && q == q[..n] + [q[n]];
    }
  }

  // ----- new indices and keys

  /** The cells of a tag product: the reaggregated index of cell c is the position of its key. */
  ghost predicate IndexIsKey(c: nat, shape: seq<nat>, sel: seq<nat>)
    requires Positions(sel, |shape|) && c < Prod(shape)
  {
    var t := Target(c, shape, Chosen(|shape|, sel));
    t < |AggKeys(shape, sel)| && AggKeys(shape, sel)[t] == Pick(Unravel(c, shape), sel)
  }

  lemma {:induction false} PickInShape(c: seq<nat>, shape: seq<nat>, ps: seq<nat>)
    requires InShape(c, shape) && Positions(ps, |shape|)
    ensures InShape(Pick(c, ps), Pick(shape, ps))
  {
  }

  /** In terms of codes: the kept positions in their order against the chosen ones in theirs. */
  lemma {:induction false} IndexIsKeyIff(c: nat, shape: seq<nat>, sel: seq<nat>)
    requires Positions(sel, |shape|) && c < Prod(shape)
    ensures InShape(Unravel(c, shape), shape)
    ensures IndexIsKey(c, shape, sel) <==>
            Code(Unravel(c, shape), shape, Solid(Kept(Chosen(|shape|, sel), 0), shape)) ==
            Code(Unravel(c, shape), shape, Solid(sel, shape))
  {
    hide Code, Solid, Kept, Product, Chosen;
    var x, keep := Unravel(c, shape), Chosen(|shape|, sel);
    UnravelFacts(c, shape);
    assert x[0..] == x && shape[0..] == shape;
    ProjectIsPick(x, keep, 0);
    ProjectIsPick(shape, keep, 0);
    CodeIsRavel(x, shape, Kept(keep, 0));
    CodeSolid(x, shape, Kept(keep, 0));
    CodeIsRavel(x, shape, sel);
    CodeSolid(x, shape, sel);
    KeyPosition(x, shape, sel, Target(c, shape, keep));
  }

  lemma {:induction false} KeyPosition(x: seq<nat>, shape: seq<nat>, sel: seq<nat>, t: nat)
    requires InShape(x, shape) && Positions(sel, |shape|)
    ensures t < |AggKeys(shape, sel)| && AggKeys(shape, sel)[t] == Pick(x, sel) <==>
      t == Ravel(Pick(x, sel), Pick(shape, sel))
  {
    hide Product, Ravel, Unravel;
    PickInShape(x, shape, sel);
    RavelFacts(Pick(x, sel), Pick(shape, sel));
    ProductAt(Pick(shape, sel));
    if t < Prod(Pick(shape, sel)) {
      UnravelFacts(t, Pick(shape, sel));
    }
  }

  lemma {:induction false} SizesPositive(shape: seq<nat>)
    ensures Prod(shape) > 0 <==> NoEmpty(shape)
  {
    if shape != [] {
      SizesPositive(shape[1..]);
      assert shape[0] > 0 && Prod(shape[1..]) > 0 ==> shape[0] * Prod(shape[1..]) > 0;
      assert forall i :: 0 <= i < |shape[1..]| ==> shape[1..][i] == shape[i + 1];
      assert forall i :: 1 <= i < |shape| ==> shape[i] == shape[1..][i - 1];
    }
  }

  /** Every new index is the position of its key in `agg_keys` if and only if there is nothing to
      index or the chosen tags that have several values are chosen once each and in the order
      of the parent calculation. */
  lemma {:induction false} OrderIff(shape: seq<nat>, sel: seq<nat>)
    requires Positions(sel, |shape|)
    ensures (forall c: nat :: c < Prod(shape) ==> IndexIsKey(c, shape, sel)) <==>
            Prod(shape) == 0 || Increasing(Solid(sel, shape))
  {
    hide IndexIsKey, Code, Kept, Chosen, Unravel;
    var keep := Chosen(|shape|, sel);
    var p, q := Solid(Kept(keep, 0), shape), Solid(sel, shape);
    SizesPositive(shape);
    KeptIncreases(keep, 0);
    SolidIncreasing(Kept(keep, 0), shape);
    SameSolid(shape, sel);
    hide Solid;
    if Prod(shape) > 0 {
      if Increasing(q) {
        SameIncreasing(p, q);
        forall c: nat | c < Prod(shape) ensures IndexIsKey(c, shape, sel) {
          IndexIsKeyIff(c, shape, sel);
        }
      }
      if forall c: nat :: c < Prod(shape) ==> IndexIsKey(c, shape, sel) {
        forall x | InShape(x, shape) ensures Code(x, shape, p) == Code(x, shape, q) {
          RavelFacts(x, shape);
          assert IndexIsKey(Ravel(x, shape), shape, sel);
          IndexIsKeyIff(Ravel(x, shape), shape, sel);
        }
        CodesDetermine(shape, p, q);
      }
    }
  }

  lemma {:induction false} SameSolid(shape: seq<nat>, sel: seq<nat>)
    requires Positions(sel, |shape|)
    ensures var p, q := Solid(Kept(Chosen(|shape|, sel), 0), shape), Solid(sel, shape);
      SameElements(p, q) && (NoEmpty(shape) ==> Several(p, shape) && Several(q, shape))
  {
    var p, q := Solid(Kept(Chosen(|shape|, sel), 0), shape), Solid(sel, shape);
    assert forall i :: 0 <= i < |p| ==> p[i] in p;
    assert forall i :: 0 <= i < |q| ==> q[i] in q;
    forall x: nat ensures x in Kept(Chosen(|shape|, sel), 0) <==> x in sel {
      KeptAre(Chosen(|shape|, sel), 0, x);
      assert x in sel ==> x < |shape|;
    }
  }

  /** Tags a, b and c with 2, 1 and 3 values reaggregated by c and a: the first cell with the
      second value of c has the index 1, which is the key with the second value of a. */
  lemma {:induction false} OrderWitness()
    ensures Prod([2, 1, 3]) == 6 && Unravel(1, [2, 1, 3]) == [0, 0, 1]
    ensures Target(1, [2, 1, 3], Chosen(3, [2, 0])) == 1 && |AggKeys([2, 1, 3], [2, 0])| == 6
    ensures AggKeys([2, 1, 3], [2, 0])[1] == [0, 1] && AggKeys([2, 1, 3], [2, 0])[2] == [1, 0]
    ensures Pick([0, 0, 1], [2, 0]) == [1, 0]
  {
  }

  // ----- the number of keys

  lemma {:induction false} OneMore(shape: seq<nat>, keep: seq<bool>, p: nat)
    requires |shape| == |keep| && p < |keep| && !keep[p]
    ensures Prod(Project(shape, keep[p := true])) == Prod(Project(shape, keep)) * shape[p]
  {
    var keep' := keep[p := true];
    if p == 0 {
      assert keep'[1..] == keep[1..];
      assert Project(shape, keep')[1..] == Project(shape, keep);
    } else {
      assert keep'[1..] == keep[1..][p - 1 := true];
      OneMore(shape[1..], keep[1..], p - 1);
      if keep[0] {
        assert Project(shape, keep')[1..] == Project(shape[1..], keep'[1..]);
        assert Project(shape, keep)[1..] == Project(shape[1..], keep[1..]);
        Associate(shape[0], Prod(Project(shape[1..], keep[1..])), shape[p]);
      }
    }
  }

  lemma {:induction false} NothingChosen(shape: seq<nat>, keep: seq<bool>)
    requires |shape| == |keep| && forall d :: 0 <= d < |keep| ==> !keep[d]
    ensures Project(shape, keep) == []
  {
    if shape != [] {
      NothingChosen(shape[1..], keep[1..]);
    }
  }

  lemma {:induction false} AtLeast(a: nat, b: nat, n: nat)
    requires a <= b && n > 0
    ensures a <= b * n
  {
    assert b * n == b + b * (n - 1);
    assert b * (n - 1) >= 0;
  }

  /** `len(agg_keys)`: there are as many keys as new indices, or more if a tag is repeated. */
  lemma {:induction false} KeysCount(shape: seq<nat>, sel: seq<nat>)
    requires Positions(sel, |shape|)
    ensures var n := Prod(Project(shape, Chosen(|shape|, sel)));
      && (Distinct(sel) ==> |AggKeys(shape, sel)| == n)
      && (Prod(shape) > 0 ==> |AggKeys(shape, sel)| >= n)
  {
    ProductAt(Pick(shape, sel));
    if sel == [] {
      NothingChosen(shape, Chosen(|shape|, sel));
      assert Pick(shape, sel) == [];
    } else {
      var m := |sel| - 1;
      var front, p := sel[..m], sel[m];
      KeysCount(shape, front);
      ProductAt(Pick(shape, front));
      assert sel == front + [p];
      assert Pick(shape, sel) == Pick(shape, front) + [shape[p]];
      ProdLast(Pick(shape, front), shape[p]);
      if p in front {
        assert Chosen(|shape|, sel) == Chosen(|shape|, front);
        SizesPositive(shape);
        if Prod(shape) > 0 {
          AtLeast(Prod(Project(shape, Chosen(|shape|, front))), Prod(Pick(shape, front)), shape[p]);
        }
      } else {
        assert Chosen(|shape|, sel) == Chosen(|shape|, front)[p := true];
        OneMore(shape, Chosen(|shape|, front), p);
        Smaller(Prod(Project(shape, Chosen(|shape|, front))), Prod(Pick(shape, front)), shape[p]);
      }
    }
  }

  lemma {:induction false} Smaller(a: nat, b: nat, n: nat)
    ensures a <= b ==> a * n <= b * n
  {
    assert b * n == a * n + (b - a) * n;
    assert a <= b ==> (b - a) * n >= 0;
  }

  /** Whatever the chosen tags, the row of the total keeps the total. */
  lemma {:induction false} TotalKept(t: seq<LossRow>, shape: seq<nat>, sel: seq<nat>, li: nat, e: nat)
    requires Positions(sel, |shape|) && InTable(t, Prod(shape) + 1)
    ensures var K := |AggKeys(shape, sel)|;
      TableTotal(Reagg(t, shape, Chosen(|shape|, sel), K), li, TotalOf(e, K)) ==
      TableTotal(t, li, TotalOf(e, Prod(shape)))
  {
    hide Reagg, TableTotal, AggKeys, Chosen;
    KeysCount(shape, sel);
    TotalApart(t, shape, Chosen(|shape|, sel), |AggKeys(shape, sel)|, li, e);
  }

  // ----- the totals by key

  /** The cells of event e whose values of the chosen tags are the ones of the key. */
  ghost function KeyOf(e: nat, shape: seq<nat>, sel: seq<nat>, key: seq<nat>): (nat, nat) -> bool
    requires Positions(sel, |shape|)
  {
    (e': nat, k: nat) => e' == e && k < Prod(shape) && Pick(Unravel(k, shape), sel) == key
  }

  lemma {:induction false} TargetIsKey(c: nat, shape: seq<nat>, sel: seq<nat>, j: nat)
    requires Positions(sel, |shape|) && Increasing(Solid(sel, shape))
    requires c < Prod(shape) && j < |AggKeys(shape, sel)|
    ensures Target(c, shape, Chosen(|shape|, sel)) == j <==> Pick(Unravel(c, shape), sel) == AggKeys(shape, sel)[j]
  {
    hide Target, AggKeys, Unravel, Solid, Chosen;
    OrderIff(shape, sel);
    assert IndexIsKey(c, shape, sel);
    UnravelFacts(c, shape);
    KeyPosition(Unravel(c, shape), shape, sel, j);
    KeyPosition(Unravel(c, shape), shape, sel, Target(c, shape, Chosen(|shape|, sel)));
  }

  /** Then the rows under the j-th key add up, for each event and loss type, to the rows of the
      parent calculation whose values of the chosen tags are the ones of that key. */
  lemma {:induction false} KeyTotals(t: seq<LossRow>, shape: seq<nat>, sel: seq<nat>, li: nat, e: nat)
    requires Positions(sel, |shape|) && Increasing(Solid(sel, shape))
    requires InTable(t, Prod(shape) + 1)
    ensures var keys := AggKeys(shape, sel);
      var r := Reagg(t, shape, Chosen(|shape|, sel), |keys|);
      forall j: nat :: j < |keys| ==>
        TableTotal(r, li, TotalOf(e, j)) == TableTotal(t, li, KeyOf(e, shape, sel, keys[j]))
  {
    hide Reagg, TableTotal, AggKeys, Target, Solid, Chosen;
    var keys, keep := AggKeys(shape, sel), Chosen(|shape|, sel);
    forall j: nat | j < |keys|
      ensures TableTotal(Reagg(t, shape, keep, |keys|), li, TotalOf(e, j)) ==
              TableTotal(t, li, KeyOf(e, shape, sel, keys[j]))
    {
      forall k: nat | k < Prod(shape)
        ensures Target(k, shape, keep) == j <==> Pick(Unravel(k, shape), sel) == keys[j]
      {
        TargetIsKey(k, shape, sel, j);
      }
      ReaggTotal(t, shape, keep, |keys|, li, TotalOf(e, j), KeyOf(e, shape, sel, keys[j]));
    }
  }
}
