/** Plain data as JavaScript holds it before serialisation, and when two values are the same data. */
module Values {
  import opened Text
  import opened Sorting
  import opened Unicode

  /** A number: an integer, the negative zero, or anything else a double can be. */
  datatype Numeric = Integral(n: int) | NegativeZero | NotInteger

  const MAX_SAFE_INTEGER: int := 0x1f_ffff_ffff_ffff

  datatype Data =
    | Null
    | Bool(on: bool)
    | Str(text: Text)
    | Num(number: Numeric)
    | List(items: seq<Data>)
    | Record(fields: seq<Field>)
    | Unsupported

  /** An own property. The order of fields is the insertion order. */
  datatype Field = Field(name: Text, value: Data)

  predicate DistinctNames(fs: seq<Field>) {
    forall i, j :: 0 <= i < j < |fs| ==> fs[i].name != fs[j].name
  }

  /** An object has at most one property of a name. */
  predicate Proper(d: Data) {
    match d
    case List(items) => forall i :: 0 <= i < |items| ==> Proper(items[i])
    case Record(fs) => DistinctNames(fs) && forall i :: 0 <= i < |fs| ==> Proper(fs[i].value)
    case _ => true
  }

  /** The same data, whatever the order in which properties were inserted. */
  ghost predicate Same(a: Data, b: Data) {
    match a
    case List(xs) =>
      b.List? && |xs| == |b.items| && forall i :: 0 <= i < |xs| ==> Same(xs[i], b.items[i])
    case Record(fs) =>
      b.Record? && Covers(fs, b.fields) && Covered(fs, b.fields)
    case _ => a == b
  }

  /** Every field on the left has its like on the right. */
  ghost predicate Covers(fs: seq<Field>, gs: seq<Field>)
    decreases fs
  {
    forall i {:trigger LikeAmong(fs[i], gs)} :: 0 <= i < |fs| ==> LikeAmong(fs[i], gs)
  }

  /** Every field on the right has its like on the left. */
  ghost predicate Covered(fs: seq<Field>, gs: seq<Field>)
    decreases fs, 2
  {
    forall j {:trigger LikeOf(fs, gs[j])} :: 0 <= j < |gs| ==> LikeOf(fs, gs[j])
  }

  ghost predicate LikeAmong(f: Field, gs: seq<Field>)
    decreases f, 1
  {
    exists j :: 0 <= j < |gs| && SameField(f, gs[j])
  }

  ghost predicate LikeOf(fs: seq<Field>, g: Field)
    decreases fs, 1
  {
    exists i :: 0 <= i < |fs| && SameField(fs[i], g)
  }

  ghost predicate SameField(f: Field, g: Field)
    decreases f, 0
  {
    f.name == g.name && Same(f.value, g.value)
  }

  /** Records that cover each other agree field by field where their names do. */
  lemma SameAt(fs: seq<Field>, gs: seq<Field>, i: nat)
    requires Same(Record(fs), Record(gs)) && DistinctNames(gs)
    requires i < |fs| && i < |gs| && fs[i].name == gs[i].name
    ensures SameField(fs[i], gs[i])
  {
    assert LikeAmong(fs[i], gs);
    var j :| 0 <= j < |gs| && SameField(fs[i], gs[j]);
    assert j == i;
  }

  lemma SamePointwise(fs: seq<Field>, gs: seq<Field>)
    requires |fs| == |gs| && forall i :: 0 <= i < |fs| ==> SameField(fs[i], gs[i])
    ensures Same(Record(fs), Record(gs))
  {
    forall i | 0 <= i < |fs| ensures LikeAmong(fs[i], gs) && LikeOf(fs, gs[i]) {
      assert SameField(fs[i], gs[i]);
    }
  }

  // ---------- What the canonical form accepts ----------

  const MAX_DEPTH: nat := 64
  const MAX_NODES: nat := 10_000

  predicate CanonicalString(t: Text, nfc: Text -> bool) {
    nfc(t) && WellFormed(t)
  }

  predicate SafeInteger(n: Numeric) {
    n.Integral? && -MAX_SAFE_INTEGER <= n.n <= MAX_SAFE_INTEGER
  }

  /** Every string well formed and in NFC, every number a safe integer, nothing else but plain data. */
  predicate Acceptable(d: Data, nfc: Text -> bool) {
    match d
    case Null => true
    case Bool(_) => true
    case Str(t) => CanonicalString(t, nfc)
    case Num(n) => SafeInteger(n)
    case List(items) => forall i :: 0 <= i < |items| ==> Acceptable(items[i], nfc)
    case Record(fs) => forall i :: 0 <= i < |fs| ==> CanonicalString(fs[i].name, nfc) && Acceptable(fs[i].value, nfc)
    case Unsupported => false
  }

  /** No node lies deeper than MAX_DEPTH when this one lies at the given depth. */
  predicate Shallow(d: Data, depth: nat) {
    && depth <= MAX_DEPTH
    && match d
       case List(items) => forall i :: 0 <= i < |items| ==> Shallow(items[i], depth + 1)
       case Record(fs) => forall i :: 0 <= i < |fs| ==> Shallow(fs[i].value, depth + 1)
       case _ => true
  }

  /** The number of values in a tree, itself included. */
  function Count(d: Data): (n: nat)
    ensures n >= 1
    decreases d, 0
  {
    match d
    case List(items) => 1 + CountItems(items)
    case Record(fs) => 1 + CountFields(fs)
    case _ => 1
  }

  function CountItems(items: seq<Data>): nat
    decreases items
  {
    if items == [] then 0 else Count(items[0]) + CountItems(items[1..])
  }

  function CountFields(fs: seq<Field>): nat
    decreases fs
  {
    if fs == [] then 0 else Count(fs[0].value) + CountFields(fs[1..])
  }

  lemma {:induction false} CountItemsAppend(a: seq<Data>, b: seq<Data>)
    ensures CountItems(a + b) == CountItems(a) + CountItems(b)
  {
    if a == [] {
      assert a + b == b;
    } else {
      assert (a + b)[1..] == a[1..] + b;
      CountItemsAppend(a[1..], b);
    }
  }

  lemma {:induction false} CountFieldsAppend(a: seq<Field>, b: seq<Field>)
    ensures CountFields(a + b) == CountFields(a) + CountFields(b)
  {
    if a == [] {
      assert a + b == b;
    } else {
      assert (a + b)[1..] == a[1..] + b;
      CountFieldsAppend(a[1..], b);
    }
  }

  // ---------- Keys in code-unit order ----------

  const BY_NAME: (Field, Field) -> bool := (f: Field, g: Field) => Less(f.name, g.name)

  lemma ByNameOrder()
    ensures StrictWeakOrder(BY_NAME)
  {
    forall x ensures !BY_NAME(x, x) {
      LessIrreflexive(x.name);
    }
    forall x, y, z | BY_NAME(x, y) && BY_NAME(y, z) ensures BY_NAME(x, z) {
      LessTransitive(x.name, y.name, z.name);
    }
    forall x, y, z | !BY_NAME(x, y) && !BY_NAME(y, z) ensures !BY_NAME(x, z) {
      LessNegativelyTransitive(x.name, y.name, z.name);
    }
  }

  lemma DistinctNamesDistinguish(fs: seq<Field>)
    requires DistinctNames(fs)
    ensures Distinguished(BY_NAME, fs)
  {
    forall i, j | 0 <= i < j < |fs| ensures BY_NAME(fs[i], fs[j]) || BY_NAME(fs[j], fs[i]) {
      LessTotal(fs[i].name, fs[j].name);
    }
  }

  lemma SortedNamesDistinct(fs: seq<Field>)
    requires StrictlySorted(BY_NAME, fs)
    ensures DistinctNames(fs)
  {
    forall i, j | 0 <= i < j < |fs| ensures fs[i].name != fs[j].name {
      assert BY_NAME(fs[i], fs[j]);
      LessIrreflexive(fs[i].name);
    }
  }

  function SortFields(fs: seq<Field>): seq<Field> {
    Sort(BY_NAME, fs)
  }

  lemma SortFieldsMembers(fs: seq<Field>)
    ensures |SortFields(fs)| == |fs|
    ensures forall f :: f in SortFields(fs) <==> f in fs
  {
    SortPermutes(BY_NAME, fs);
    SameMembers(SortFields(fs), fs);
  }

  lemma SortFieldsStrict(fs: seq<Field>)
    requires DistinctNames(fs)
    ensures StrictlySorted(BY_NAME, SortFields(fs))
  {
    ByNameOrder();
    DistinctNamesDistinguish(fs);
    SortStrictly(BY_NAME, fs);
  }

  lemma {:induction false} CountFieldsInsert(f: Field, fs: seq<Field>)
    ensures CountFields(Insert(BY_NAME, f, fs)) == Count(f.value) + CountFields(fs)
  {
    if fs != [] {
      if BY_NAME(f, fs[0]) {
        assert ([f] + fs)[1..] == fs;
      } else {
        var rest := Insert(BY_NAME, f, fs[1..]);
        CountFieldsInsert(f, fs[1..]);
        assert ([fs[0]] + rest)[1..] == rest;
      }
    }
  }

  lemma {:induction false} CountFieldsSorted(fs: seq<Field>)
    ensures CountFields(SortFields(fs)) == CountFields(fs)
  {
    if fs != [] {
      var front, last := fs[..|fs| - 1], fs[|fs| - 1];
      CountFieldsSorted(front);
      CountFieldsInsert(last, SortFields(front));
      CountFieldsAppend(front, [last]);
      assert fs == front + [last];
    }
  }

  // ---------- Normal form ----------

  /** Every record with its fields in the order of their names. */
  function Normal(d: Data): Data {
    match d
    case List(items) => List(NormalItems(items))
    case Record(fs) => Record(SortFields(NormalFields(fs)))
    case _ => d
  }

  function NormalItems(items: seq<Data>): (r: seq<Data>)
    ensures |r| == |items|
  {
    seq(|items|, i requires 0 <= i < |items| => Normal(items[i]))
  }

  function NormalField(f: Field): Field {
    Field(f.name, Normal(f.value))
  }

  function NormalFields(fs: seq<Field>): (r: seq<Field>)
    ensures |r| == |fs|
  {
    seq(|fs|, i requires 0 <= i < |fs| => NormalField(fs[i]))
  }

  lemma NormalFieldsMembers(fs: seq<Field>, g: Field)
    ensures g in SortFields(NormalFields(fs)) <==> exists i :: 0 <= i < |fs| && NormalField(fs[i]) == g
  {
    var ns := NormalFields(fs);
    SortFieldsMembers(ns);
    if g in ns {
      var i :| 0 <= i < |ns| && ns[i] == g;
      assert NormalField(fs[i]) == g;
    }
    if i :| 0 <= i < |fs| && NormalField(fs[i]) == g {
      assert ns[i] == g;
    }
  }

  lemma NormalFieldsDistinct(fs: seq<Field>)
    requires DistinctNames(fs)
    ensures DistinctNames(NormalFields(fs))
  {
    var ns := NormalFields(fs);
    forall i, j | 0 <= i < j < |ns| ensures ns[i].name != ns[j].name {
      assert ns[i] == NormalField(fs[i]) && ns[j] == NormalField(fs[j]);
    }
  }

  /** Sorting and normalising the fields commute. */
  lemma NormalSorts(fs: seq<Field>)
    requires DistinctNames(fs)
    ensures NormalFields(SortFields(fs)) == SortFields(NormalFields(fs))
  {
    var sorted := SortFields(fs);
    var a, b := NormalFields(sorted), SortFields(NormalFields(fs));
    SortFieldsStrict(fs);
    SortFieldsMembers(fs);
    NormalFieldsDistinct(fs);
    SortFieldsStrict(NormalFields(fs));
    forall i, j | 0 <= i < j < |a| ensures BY_NAME(a[i], a[j]) {
      assert BY_NAME(sorted[i], sorted[j]);
      assert a[i] == NormalField(sorted[i]) && a[j] == NormalField(sorted[j]);
    }
    forall g ensures g in a <==> g in b {
      NormalFieldsMembers(fs, g);
      if g in a {
        var i :| 0 <= i < |a| && a[i] == g;
        assert sorted[i] in fs;
        var k :| 0 <= k < |fs| && fs[k] == sorted[i];
        assert NormalField(fs[k]) == g;
      }
      if g in b {
        var k :| 0 <= k < |fs| && NormalField(fs[k]) == g;
        assert fs[k] in sorted;
        var i :| 0 <= i < |sorted| && sorted[i] == fs[k];
        assert a[i] == g;
      }
    }
    ByNameOrder();
    SortedBySet(BY_NAME, a, b);
  }

  lemma {:induction false} NormalProper(d: Data)
    requires Proper(d)
    ensures Proper(Normal(d))
  {
    match d
    case List(items) =>
      forall i | 0 <= i < |items| ensures Proper(NormalItems(items)[i]) {
        NormalProper(items[i]);
      }
    case Record(fs) =>
      NormalFieldsDistinct(fs);
      var ns := SortFields(NormalFields(fs));
      SortFieldsStrict(NormalFields(fs));
      SortedNamesDistinct(ns);
      forall k | 0 <= k < |ns| ensures Proper(ns[k].value) {
        NormalFieldsMembers(fs, ns[k]);
        var i :| 0 <= i < |fs| && NormalField(fs[i]) == ns[k];
        NormalProper(fs[i].value);
      }
    case _ =>
  }

  lemma {:induction false} NormalAcceptable(d: Data, nfc: Text -> bool)
    requires Acceptable(d, nfc)
    ensures Acceptable(Normal(d), nfc)
  {
    match d
    case List(items) =>
      forall i | 0 <= i < |items| ensures Acceptable(NormalItems(items)[i], nfc) {
        NormalAcceptable(items[i], nfc);
      }
    case Record(fs) =>
      var ns := SortFields(NormalFields(fs));
      forall k | 0 <= k < |ns| ensures CanonicalString(ns[k].name, nfc) && Acceptable(ns[k].value, nfc) {
        NormalFieldsMembers(fs, ns[k]);
        var i :| 0 <= i < |fs| && NormalField(fs[i]) == ns[k];
        NormalAcceptable(fs[i].value, nfc);
      }
    case _ =>
  }

  /** Two values have one normal form exactly when they are the same data. */
  lemma {:induction false} NormalFormDecides(a: Data, b: Data)
    requires Proper(a) && Proper(b)
    ensures Normal(a) == Normal(b) <==> Same(a, b)
    decreases a
  {
    match a
    case List(xs) =>
      if b.List? && |xs| == |b.items| {
        ListsDecide(xs, b.items);
      }
    case Record(fs) =>
      if b.Record? {
        if Same(a, b) {
          SameRecords(fs, b.fields);
        }
        if Normal(a) == Normal(b) {
          RecordsSame(fs, b.fields);
        }
      }
    case _ =>
  }

  lemma {:induction false} ListsDecide(xs: seq<Data>, ys: seq<Data>)
    requires |xs| == |ys| && Proper(List(xs)) && Proper(List(ys))
    ensures NormalItems(xs) == NormalItems(ys) <==> Same(List(xs), List(ys))
    decreases xs
  {
    var nx, ny := NormalItems(xs), NormalItems(ys);
    forall i | 0 <= i < |xs| ensures nx[i] == ny[i] <==> Same(xs[i], ys[i]) {
      NormalFormDecides(xs[i], ys[i]);
      assert nx[i] == Normal(xs[i]) && ny[i] == Normal(ys[i]);
    }
  }

  lemma {:induction false} SameFieldNormal(f: Field, g: Field)
    requires Proper(f.value) && Proper(g.value)
    ensures NormalField(f) == NormalField(g) <==> SameField(f, g)
    decreases f
  {
    NormalFormDecides(f.value, g.value);
  }

  lemma {:induction false} SameRecordsForward(fs: seq<Field>, gs: seq<Field>, g: Field)
    requires Proper(Record(fs)) && Proper(Record(gs)) && Covers(fs, gs)
    requires g in SortFields(NormalFields(fs))
    ensures g in SortFields(NormalFields(gs))
    decreases fs, 0
  {
    NormalFieldsMembers(fs, g);
    NormalFieldsMembers(gs, g);
    var i :| 0 <= i < |fs| && NormalField(fs[i]) == g;
    assert LikeAmong(fs[i], gs);
    var j :| 0 <= j < |gs| && SameField(fs[i], gs[j]);
    SameFieldNormal(fs[i], gs[j]);
  }

  lemma {:induction false} SameRecordsBackward(fs: seq<Field>, gs: seq<Field>, g: Field)
    requires Proper(Record(fs)) && Proper(Record(gs)) && Covered(fs, gs)
    requires g in SortFields(NormalFields(gs))
    ensures g in SortFields(NormalFields(fs))
    decreases fs, 0
  {
    NormalFieldsMembers(fs, g);
    NormalFieldsMembers(gs, g);
    var j :| 0 <= j < |gs| && NormalField(gs[j]) == g;
    assert LikeOf(fs, gs[j]);
    var i :| 0 <= i < |fs| && SameField(fs[i], gs[j]);
    SameFieldNormal(fs[i], gs[j]);
  }

  lemma {:induction false} SameRecords(fs: seq<Field>, gs: seq<Field>)
    requires Proper(Record(fs)) && Proper(Record(gs)) && Same(Record(fs), Record(gs))
    ensures SortFields(NormalFields(fs)) == SortFields(NormalFields(gs))
    decreases fs, 1
  {
    var a, b := SortFields(NormalFields(fs)), SortFields(NormalFields(gs));
    forall g ensures g in a <==> g in b {
      if g in a {
        SameRecordsForward(fs, gs, g);
      }
      if g in b {
        SameRecordsBackward(fs, gs, g);
      }
    }
    NormalFieldsDistinct(fs);
    NormalFieldsDistinct(gs);
    SortFieldsStrict(NormalFields(fs));
    SortFieldsStrict(NormalFields(gs));
    ByNameOrder();
    SortedBySet(BY_NAME, a, b);
  }

  lemma {:induction false} RecordsSame(fs: seq<Field>, gs: seq<Field>)
    requires Proper(Record(fs)) && Proper(Record(gs))
    requires SortFields(NormalFields(fs)) == SortFields(NormalFields(gs))
    ensures Same(Record(fs), Record(gs))
    decreases fs, 1
  {
    assert Covers(fs, gs) by { SortedCovers(fs, gs); }
    assert Covered(fs, gs) by { SortedCovered(fs, gs); }
  }

  lemma {:induction false} SortedCovers(fs: seq<Field>, gs: seq<Field>)
    requires Proper(Record(fs)) && Proper(Record(gs))
    requires SortFields(NormalFields(fs)) == SortFields(NormalFields(gs))
    ensures Covers(fs, gs)
    decreases fs, 0
  {
    forall i | 0 <= i < |fs| ensures LikeAmong(fs[i], gs) {
      NormalFieldsMembers(fs, NormalField(fs[i]));
      NormalFieldsMembers(gs, NormalField(fs[i]));
      var j :| 0 <= j < |gs| && NormalField(gs[j]) == NormalField(fs[i]);
      SameFieldNormal(fs[i], gs[j]);
    }
  }

  lemma {:induction false} SortedCovered(fs: seq<Field>, gs: seq<Field>)
    requires Proper(Record(fs)) && Proper(Record(gs))
    requires SortFields(NormalFields(fs)) == SortFields(NormalFields(gs))
    ensures Covered(fs, gs)
    decreases fs, 0
  {
    forall j | 0 <= j < |gs| ensures LikeOf(fs, gs[j]) {
      NormalFieldsMembers(fs, NormalField(gs[j]));
      NormalFieldsMembers(gs, NormalField(gs[j]));
      var i :| 0 <= i < |fs| && NormalField(fs[i]) == NormalField(gs[j]);
      SameFieldNormal(fs[i], gs[j]);
    }
  }

  /** Data whose records list their fields in order is its own normal form. */
  ghost predicate Ordered(d: Data) {
    match d
    case List(items) => forall i :: 0 <= i < |items| ==> Ordered(items[i])
    case Record(fs) => StrictlySorted(BY_NAME, fs) && forall i :: 0 <= i < |fs| ==> Ordered(fs[i].value)
    case _ => true
  }

  lemma {:induction false} OrderedIsNormal(d: Data)
    requires Ordered(d)
    ensures Proper(d) && Normal(d) == d
  {
    match d
    case List(items) =>
      forall i | 0 <= i < |items| ensures Proper(items[i]) && NormalItems(items)[i] == items[i] {
        OrderedIsNormal(items[i]);
      }
      assert NormalItems(items) == items;
    case Record(fs) =>
      SortedNamesDistinct(fs);
      forall i | 0 <= i < |fs| ensures Proper(fs[i].value) && NormalFields(fs)[i] == fs[i] {
        OrderedIsNormal(fs[i].value);
      }
      assert NormalFields(fs) == fs;
      ByNameOrder();
      SortKeepsSorted(BY_NAME, fs);
    case _ =>
  }

  lemma {:induction false} NormalOrdered(d: Data)
    requires Proper(d)
    ensures Ordered(Normal(d))
  {
    match d
    case List(items) =>
      forall i | 0 <= i < |items| ensures Ordered(NormalItems(items)[i]) {
        NormalOrdered(items[i]);
      }
    case Record(fs) =>
      NormalFieldsDistinct(fs);
      var ns := SortFields(NormalFields(fs));
      SortFieldsStrict(NormalFields(fs));
      forall k | 0 <= k < |ns| ensures Ordered(ns[k].value) {
        NormalFieldsMembers(fs, ns[k]);
        var i :| 0 <= i < |fs| && NormalField(fs[i]) == ns[k];
        NormalOrdered(fs[i].value);
      }
    case _ =>
  }

  /** Data in normal form, as it comes out of canonical text. */
  type NormalData = d: Data | Proper(d) && Normal(d) == d witness Null

  /** The normal form is one. */
  lemma NormalIsNormal(d: Data)
    requires Proper(d)
    ensures Proper(Normal(d)) && Normal(Normal(d)) == Normal(d)
  {
    NormalOrdered(d);
    OrderedIsNormal(Normal(d));
  }
}
