/** The telemetry-log-to-CSV converter (src/zmq/make_csv.py): a MsgProcessor
    per message stream flattens each message's array fields into columns
    named name[i], adds header fields, corrects the wrap-around of the
    on-board computer's ELECTRICAL_STATE time_steady, drops messages outside
    the time_steady range and appends the rest as CSV rows. */
module MavCsv {
  import opened Wrappers
  import opened Strings

  // ---------------------------------------------------------------------
  // Message values and the row dictionary
  // ---------------------------------------------------------------------

  /** A value stored in a CSV cell: an integer field or a str. */
  datatype Leaf = Num(n: int) | Text(s: string)

  /** A message field as to_dict gives it: a leaf, or an iterable (a list,
      a tuple) of further values. */
  datatype Value = Scalar(leaf: Leaf) | Items(elems: seq<Value>)

  /** A Python dict: its keys in insertion order and its mapping. */
  datatype Dict = Dict(keys: seq<string>, vals: map<string, Leaf>)

  /** What every dict satisfies: no key listed twice, and the listed keys
      are the mapped ones. */
  ghost predicate Wf(d: Dict) {
    (forall i, j :: 0 <= i < j < |d.keys| ==> d.keys[i] != d.keys[j])
    && (forall k :: k in d.vals <==> k in d.keys)
  }

  /** d[k], None where it would raise KeyError. */
  function Lookup(d: Dict, k: string): Option<Leaf> {
    if k in d.vals then Some(d.vals[k]) else None
  }

  /** d[k] = v: a present key keeps its place, a new one goes last. */
  function Put(d: Dict, k: string, v: Leaf): (r: Dict)
    ensures Lookup(r, k) == Some(v)
    ensures forall k' :: k' != k ==> Lookup(r, k') == Lookup(d, k')
  {
    if k in d.keys then Dict(d.keys, d.vals[k := v]) else Dict(d.keys + [k], d.vals[k := v])
  }

  lemma PutWf(d: Dict, k: string, v: Leaf)
    requires Wf(d)
    ensures Wf(Put(d, k, v))
  {
  }

  lemma RemoveWf(d: Dict, k: string)
    requires Wf(d)
    ensures Wf(Remove(d, k))
  {
  }

  /** ks without k. */
  function Drop(ks: seq<string>, k: string): (r: seq<string>)
    ensures forall x :: x in r <==> x in ks && x != k
    ensures (forall i, j :: 0 <= i < j < |ks| ==> ks[i] != ks[j]) ==>
      forall i, j :: 0 <= i < j < |r| ==> r[i] != r[j]
  {
    if ks == [] then []
    else if ks[0] == k then Drop(ks[1..], k)
    else
      var t := Drop(ks[1..], k);
      assert forall x :: x in ks[1..] ==> x in ks;
      assert (forall i, j :: 0 <= i < j < |ks| ==> ks[i] != ks[j]) ==> ks[0] !in t by {
        if forall i, j :: 0 <= i < j < |ks| ==> ks[i] != ks[j] {
          forall i | 0 <= i < |ks[1..]| ensures ks[1..][i] != ks[0] {
            assert ks[1..][i] == ks[i + 1];
          }
        }
      }
      [ks[0]] + t
  }

  /** del d[k], for a key that is present (accept checks first). */
  function Remove(d: Dict, k: string): (r: Dict)
    ensures Lookup(r, k) == None
    ensures forall k' :: k' != k ==> Lookup(r, k') == Lookup(d, k')
  {
    Dict(Drop(d.keys, k), d.vals - {k})
  }

  /** The empty dict {}. */
  const Empty: Dict := Dict([], map[])

  /** A sequence of assignments d[k] = v, in order. */
  type Pairs = seq<(string, Leaf)>

  function KeysOf(ps: Pairs): (ks: seq<string>)
    ensures |ks| == |ps| && forall i :: 0 <= i < |ps| ==> ks[i] == ps[i].0
  {
    seq(|ps|, i requires 0 <= i < |ps| => ps[i].0)
  }

  /** No key assigned twice. */
  predicate DistinctKeys(ps: Pairs) {
    forall i, j :: 0 <= i < j < |ps| ==> ps[i].0 != ps[j].0
  }

  /** The assignments of ps applied to d, first to last (dict.update, or
      the assignments of a flattening). */
  function PutAll(d: Dict, ps: Pairs): (r: Dict)
  {
    if ps == [] then d else Put(PutAll(d, ps[..|ps| - 1]), ps[|ps| - 1].0, ps[|ps| - 1].1)
  }

  lemma {:induction false} PutAllWf(d: Dict, ps: Pairs)
    requires Wf(d)
    ensures Wf(PutAll(d, ps))
  {
    if ps != [] {
      PutAllWf(d, ps[..|ps| - 1]);
      PutWf(PutAll(d, ps[..|ps| - 1]), ps[|ps| - 1].0, ps[|ps| - 1].1);
    }
  }

  lemma {:induction false} PutAllAppend(d: Dict, a: Pairs, b: Pairs)
    ensures PutAll(d, a + b) == PutAll(PutAll(d, a), b)
    decreases |b|
  {
    if b == [] {
      assert a + b == a;
    } else {
      var ab, init, x := a + b, b[..|b| - 1], b[|b| - 1];
      assert ab[..|ab| - 1] == a + init && ab[|ab| - 1] == x;
      calc {
        PutAll(d, ab);
        Put(PutAll(d, a + init), x.0, x.1);
        { PutAllAppend(d, a, init); }
        Put(PutAll(PutAll(d, a), init), x.0, x.1);
        PutAll(PutAll(d, a), b);
      }
    }
  }

  /** Keys that ps does not assign keep their value. */
  lemma {:induction false} PutAllOther(d: Dict, ps: Pairs, k: string)
    requires k !in KeysOf(ps)
    ensures Lookup(PutAll(d, ps), k) == Lookup(d, k)
  {
    if ps != [] {
      var init := ps[..|ps| - 1];
      assert KeysOf(init) == KeysOf(ps)[..|ps| - 1];
      PutAllOther(d, init, k);
    }
  }

  /** With distinct keys, every assignment of ps survives. */
  lemma {:induction false} PutAllFinds(d: Dict, ps: Pairs, i: nat)
    requires DistinctKeys(ps) && i < |ps|
    ensures Lookup(PutAll(d, ps), ps[i].0) == Some(ps[i].1)
  {
    var init := ps[..|ps| - 1];
    if i < |ps| - 1 {
      assert init[i] == ps[i];
      assert DistinctKeys(init) by {
        forall a, b | 0 <= a < b < |init| ensures init[a].0 != init[b].0 {
          assert init[a] == ps[a] && init[b] == ps[b];
        }
      }
      PutAllFinds(d, init, i);
    }
  }

  /** No key of ps is in d. */
  predicate Fresh(d: Dict, ps: Pairs) {
    forall i :: 0 <= i < |ps| ==> ps[i].0 !in d.keys
  }

  /** Distinct keys that d does not hold are appended in order: nothing is
      overwritten. */
  lemma {:induction false} PutAllFresh(d: Dict, ps: Pairs)
    requires DistinctKeys(ps) && Fresh(d, ps)
    ensures PutAll(d, ps).keys == d.keys + KeysOf(ps)
  {
    if ps != [] {
      var init := ps[..|ps| - 1];
      var last := ps[|ps| - 1];
      assert DistinctKeys(init) && Fresh(d, init) by {
        forall a | 0 <= a < |init| ensures init[a] == ps[a] {
        }
      }
      PutAllFresh(d, init);
      assert last.0 !in KeysOf(init) by {
        forall a | 0 <= a < |init| ensures KeysOf(init)[a] != last.0 {
          assert init[a] == ps[a];
        }
      }
      assert KeysOf(ps) == KeysOf(init) + [last.0];
    }
  }

  // ---------------------------------------------------------------------
  // _expand and expand_arrays
  // ---------------------------------------------------------------------

  /** The key "%s[%d]" % (base, i) of element i of the iterable at base. */
  function Index(base: string, i: nat): (k: string)
    ensures base + "[" <= k
  {
    base + "[" + NatToDecimal(i) + "]"
  }

  /** The pairs _expand assigns for v at base, in assignment order: a leaf
      under base itself, an iterable element by element, element i under
      Index(base, i). */
  function Flatten(v: Value, base: string): Pairs
    decreases v, 1
  {
    match v
    case Scalar(l) => [(base, l)]
    case Items(es) => FlattenElems(v, |es|, base)
  }

  /** The pairs for the first n elements of the iterable v. */
  function FlattenElems(v: Value, n: nat, base: string): Pairs
    requires v.Items? && n <= |v.elems|
    decreases v, 0, n
  {
    if n == 0 then []
    else FlattenElems(v, n - 1, base) + Flatten(v.elems[n - 1], Index(base, n - 1))
  }

  /** The pairs expand_arrays assigns for the fields of a message, field by
      field in the message's order. */
  function FlattenFields(fields: seq<(string, Value)>): Pairs {
    if fields == [] then []
    else
      var last := fields[|fields| - 1];
      FlattenFields(fields[..|fields| - 1]) + Flatten(last.1, last.0)
  }

  /** _expand: fills retval with the leaves of v. The dict that the source
      fills in place is passed in and handed back. */
  method Expand(retval: Dict, v: Value, base: string) returns (r: Dict)
    ensures r == PutAll(retval, Flatten(v, base))
    decreases v
  {
    match v {
      case Scalar(l) =>
        r := Put(retval, base, l);
      case Items(es) =>
        r := retval;
        for i := 0 to |es|
          invariant r == PutAll(retval, FlattenElems(v, i, base))
        {
          var key := Index(base, i);
          ghost var before := FlattenElems(v, i, base);
          r := Expand(r, es[i], key);
          PutAllAppend(retval, before, Flatten(es[i], key));
        }
    }
  }

  /** expand_arrays: a fresh dict filled by _expand for each field. */
  method ExpandArrays(fields: seq<(string, Value)>) returns (r: Dict)
    ensures r == PutAll(Empty, FlattenFields(fields))
  {
    r := Empty;
    for i := 0 to |fields|
      invariant r == PutAll(Empty, FlattenFields(fields[..i]))
    {
      var (key, value) := fields[i];
      ghost var before := FlattenFields(fields[..i]);
      assert fields[..i + 1][..i] == fields[..i];
      r := Expand(r, value, key);
      PutAllAppend(Empty, before, Flatten(value, key));
    }
    assert fields[..|fields|] == fields;
  }

  // Keys of the flattening

  /** ']' does not occur in a decimal numeral, so the first ']' after it
      closes it. */
  lemma ClosingBracket(n: nat, r: string)
    ensures FirstIndex(NatToDecimal(n) + "]" + r, ']') == Some(|NatToDecimal(n)|)
  {
    var d := NatToDecimal(n);
    assert ']' !in d by {
      forall i | 0 <= i < |d| ensures d[i] != ']' {
        assert IsDecimalDigit(d[i]);
      }
    }
    FirstIndexAfter(d, "]" + r, ']');
    assert d + "]" + r == d + ("]" + r);
  }

  /** Keys under different elements of one iterable differ, whatever
      follows them. */
  lemma IndexDistinct(b: string, i: nat, j: nat, r1: string, r2: string)
    requires i != j
    ensures Index(b, i) + r1 != Index(b, j) + r2
  {
    var p := b + "[";
    var s1, s2 := NatToDecimal(i) + "]" + r1, NatToDecimal(j) + "]" + r2;
    assert Index(b, i) + r1 == p + s1 && Index(b, j) + r2 == p + s2;
    assert s1 != s2 by {
      ClosedNumeralsDiffer(i, j, r1, r2);
    }
    assert (p + s1)[|p|..] == s1 && (p + s2)[|p|..] == s2;
  }

  /** Two numerals closed by ']' differ when the numbers do. */
  lemma ClosedNumeralsDiffer(i: nat, j: nat, r1: string, r2: string)
    requires i != j
    ensures NatToDecimal(i) + "]" + r1 != NatToDecimal(j) + "]" + r2
  {
    var di, dj := NatToDecimal(i), NatToDecimal(j);
    var s1, s2 := di + "]" + r1, dj + "]" + r2;
    ClosingBracket(i, r1);
    ClosingBracket(j, r2);
    assert di != dj by {
      DecimalValue(i);
      DecimalValue(j);
    }
    assert s1[..|di|] == di && s2[..|dj|] == dj;
  }

  /** Every key _expand assigns for v starts with base; when v is an
      iterable, base is followed by '['. */
  lemma {:induction false} FlattenUnder(v: Value, base: string)
    ensures forall p | p in Flatten(v, base) :: base <= p.0
    ensures v.Items? ==> forall p | p in Flatten(v, base) :: base + "[" <= p.0
    decreases v, 1
  {
    if v.Items? {
      FlattenElemsUnder(v, |v.elems|, base);
      forall p | p in Flatten(v, base) ensures base + "[" <= p.0 {
        var i :| 0 <= i < |v.elems| && Index(base, i) <= p.0;
      }
    }
  }

  /** Every key assigned for the first n elements starts with the key of
      one of them. */
  lemma {:induction false} FlattenElemsUnder(v: Value, n: nat, base: string)
    requires v.Items? && n <= |v.elems|
    ensures forall p | p in FlattenElems(v, n, base) ::
      exists i :: 0 <= i < n && Index(base, i) <= p.0
    decreases v, 0, n
  {
    if n > 0 {
      var a := FlattenElems(v, n - 1, base);
      var b := Flatten(v.elems[n - 1], Index(base, n - 1));
      FlattenElemsUnder(v, n - 1, base);
      FlattenUnder(v.elems[n - 1], Index(base, n - 1));
      forall p: (string, Leaf) | p in a + b ensures exists i :: 0 <= i < n && Index(base, i) <= p.0 {
        if p in a {
          var i :| 0 <= i < n - 1 && Index(base, i) <= p.0;
        } else {
          assert Index(base, n - 1) <= p.0;
        }
      }
    }
  }

  /** Two dicts with distinct keys, no key shared, concatenate to one. */
  lemma DistinctConcat(a: Pairs, b: Pairs)
    requires DistinctKeys(a) && DistinctKeys(b)
    requires forall p, q | p in a && q in b :: p.0 != q.0
    ensures DistinctKeys(a + b)
  {
    var x := a + b;
    forall i, j | 0 <= i < j < |x| ensures x[i].0 != x[j].0 {
      if j < |a| {
        assert x[i] == a[i] && x[j] == a[j];
      } else if i >= |a| {
        assert x[i] == b[i - |a|] && x[j] == b[j - |a|];
      } else {
        assert x[i] in a && x[j] in b;
      }
    }
  }

  /** _expand never assigns a key twice for one value. */
  lemma {:induction false} FlattenDistinct(v: Value, base: string)
    ensures DistinctKeys(Flatten(v, base))
    decreases v, 1
  {
    if v.Items? {
      FlattenElemsDistinct(v, |v.elems|, base);
    }
  }

  lemma {:induction false} FlattenElemsDistinct(v: Value, n: nat, base: string)
    requires v.Items? && n <= |v.elems|
    ensures DistinctKeys(FlattenElems(v, n, base))
    decreases v, 0, n
  {
    if n > 0 {
      var key := Index(base, n - 1);
      var a := FlattenElems(v, n - 1, base);
      var b := Flatten(v.elems[n - 1], key);
      FlattenElemsDistinct(v, n - 1, base);
      FlattenDistinct(v.elems[n - 1], key);
      FlattenElemsUnder(v, n - 1, base);
      FlattenUnder(v.elems[n - 1], key);
      forall p, q | p in a && q in b ensures p.0 != q.0 {
        var i :| 0 <= i < n - 1 && Index(base, i) <= p.0;
        var ki := Index(base, i);
        assert p.0 == ki + p.0[|ki|..];
        assert q.0 == key + q.0[|key|..];
        IndexDistinct(base, i, n - 1, p.0[|ki|..], q.0[|key|..]);
      }
      DistinctConcat(a, b);
    }
  }

  /** The names of a message's fields: distinct, and without '[' (they are
      identifiers). */
  predicate FieldNames(fields: seq<(string, Value)>) {
    (forall i, j :: 0 <= i < j < |fields| ==> fields[i].0 != fields[j].0)
    && (forall i :: 0 <= i < |fields| ==> '[' !in fields[i].0)
  }

  /** Keys that start with two different '['-free field names, each followed
      by nothing or by '[', differ. */
  lemma FieldKeysDiffer(a: string, b: string, ka: string, kb: string)
    requires '[' !in a && '[' !in b && a != b
    requires a <= ka && (|ka| == |a| || ka[|a|] == '[')
    requires b <= kb && (|kb| == |b| || kb[|b|] == '[')
    ensures ka != kb
  {
    assert |a| < |b| ==> b[|a|] != '[';
    assert |b| < |a| ==> a[|b|] != '[';
  }

  /** The keys of one field start with its name, followed by nothing or by
      '['. */
  lemma FieldKeys(v: Value, name: string)
    ensures forall p | p in Flatten(v, name) ::
      name <= p.0 && (|p.0| == |name| || p.0[|name|] == '[')
  {
    FlattenUnder(v, name);
    forall p | p in Flatten(v, name)
      ensures |p.0| == |name| || p.0[|name|] == '['
    {
      if v.Items? {
        assert (name + "[")[|name|] == '[';
      }
    }
  }

  /** expand_arrays overwrites nothing: its keys are distinct and it holds
      exactly the flattened pairs of every field, in field order. */
  lemma {:induction false} FlattenFieldsDistinct(fields: seq<(string, Value)>)
    requires FieldNames(fields)
    ensures DistinctKeys(FlattenFields(fields))
    ensures PutAll(Empty, FlattenFields(fields)).keys == KeysOf(FlattenFields(fields))
  {
    if fields != [] {
      var init := fields[..|fields| - 1];
      var last := fields[|fields| - 1];
      var a := FlattenFields(init);
      var b := Flatten(last.1, last.0);
      assert FieldNames(init);
      FlattenFieldsDistinct(init);
      FlattenDistinct(last.1, last.0);
      FieldKeys(last.1, last.0);
      forall p, q | p in a && q in b ensures p.0 != q.0 {
        var k := FieldOfKey(init, p);
        FieldKeys(init[k].1, init[k].0);
        FieldKeysDiffer(init[k].0, last.0, p.0, q.0);
      }
      DistinctConcat(a, b);
    }
    PutAllFresh(Empty, FlattenFields(fields));
  }

  /** The field whose flattening a pair of FlattenFields came from. */
  lemma {:induction false} FieldOfKey(fields: seq<(string, Value)>, p: (string, Leaf)) returns (k: nat)
    requires p in FlattenFields(fields)
    ensures k < |fields| && p in Flatten(fields[k].1, fields[k].0)
  {
    var init := fields[..|fields| - 1];
    var last := fields[|fields| - 1];
    if p in Flatten(last.1, last.0) {
      k := |fields| - 1;
    } else {
      k := FieldOfKey(init, p);
    }
  }

  /** Every pair of a field's flattening is in the fields' flattening. */
  lemma {:induction false} FieldInFlatten(fields: seq<(string, Value)>, k: nat, p: (string, Leaf))
    requires k < |fields| && p in Flatten(fields[k].1, fields[k].0)
    ensures p in FlattenFields(fields)
  {
    if k < |fields| - 1 {
      FieldInFlatten(fields[..|fields| - 1], k, p);
    }
  }

  /** A scalar field keeps its key and its value in the expanded dict. */
  lemma ScalarFieldKept(fields: seq<(string, Value)>, k: nat)
    requires FieldNames(fields) && k < |fields| && fields[k].1.Scalar?
    ensures Lookup(PutAll(Empty, FlattenFields(fields)), fields[k].0) == Some(fields[k].1.leaf)
  {
    FlattenFieldsDistinct(fields);
    FieldInFlatten(fields, k, (fields[k].0, fields[k].1.leaf));
    var ps := FlattenFields(fields);
    var i :| 0 <= i < |ps| && ps[i] == (fields[k].0, fields[k].1.leaf);
    PutAllFinds(Empty, ps, i);
  }

  /** A list of leaves becomes one column per element, base[0] ... base[n-1],
      in order; an empty list contributes no column. */
  lemma {:induction false} FlattenLeaves(v: Value, n: nat, base: string)
    requires v.Items? && n <= |v.elems| && forall i :: 0 <= i < |v.elems| ==> v.elems[i].Scalar?
    ensures FlattenElems(v, n, base) == seq(n, i requires 0 <= i < n => (Index(base, i), v.elems[i].leaf))
  {
    if n > 0 {
      FlattenLeaves(v, n - 1, base);
    }
  }

  /** Nested iterables give keys such as base[1][0]. */
  lemma NestedKeys(x: Leaf, y: Leaf, z: Leaf)
    ensures Flatten(Items([Scalar(x), Items([Scalar(y), Scalar(z)])]), "m")
      == [("m[0]", x), ("m[1][0]", y), ("m[1][1]", z)]
  {
    var w := Items([Scalar(y), Scalar(z)]);
    var v := Items([Scalar(x), w]);
    assert NatToDecimal(0) == "0" && NatToDecimal(1) == "1";
    assert Index("m", 0) == "m[0]" && Index("m", 1) == "m[1]";
    assert Index("m[1]", 0) == "m[1][0]" && Index("m[1]", 1) == "m[1][1]";
    assert FlattenElems(w, 1, "m[1]") == [("m[1][0]", y)];
    assert Flatten(w.elems[1], "m[1][1]") == [("m[1][1]", z)];
    assert FlattenElems(w, 2, "m[1]") == FlattenElems(w, 1, "m[1]") + Flatten(w.elems[1], Index("m[1]", 1));
    assert FlattenElems(v, 1, "m") == [("m[0]", x)];
    assert Flatten(v, "m") == FlattenElems(v, 1, "m") + Flatten(w, Index("m", 1));
  }

  // ---------------------------------------------------------------------
  // The time_steady correction and the range filter of accept
  // ---------------------------------------------------------------------

  /** int(0xFFFFFFFF / 1000): how far the on-board computer's time_steady,
      a 32-bit millisecond counter divided by 1000, falls back when the
      counter wraps. */
  const WRAP_CORRECTION: int := 4294967

  /** The on-board computer's system id. */
  const BCU_SYSTEM: int := 10

  /** The mavlink header fields accept copies into the row. */
  datatype Header = Header(sequence: int, srcSystem: int, srcComponent: int)

  /** A received message: its class name, to_dict's fields without the
      header, and the header. */
  datatype Message = Message(className: string, fields: seq<(string, Value)>, header: Header)

  /** The exceptions accept lets through: a missing time_steady key (KeyError)
      and arithmetic or comparison between a str and an int (TypeError). */
  datatype AcceptError = KeyError(key: string) | TypeError

  /** A defaultdict(lambda: 0) read. */
  function Get(m: map<int, int>, c: int): int {
    if c in m then m[c] else 0
  }

  /** The corrected value for current, given the component's offset and
      previous value, and the new offset: the offset grows by
      WRAP_CORRECTION exactly when current plus the old offset falls below
      the previous corrected value. */
  function Correct(offset: int, prev: int, current: int): (r: (int, int))
    ensures r.1 == (if current + offset < prev then offset + WRAP_CORRECTION else offset)
    ensures r.0 == current + r.1
  {
    if current + offset < prev then (current + offset + WRAP_CORRECTION, offset + WRAP_CORRECTION)
    else (current + offset, offset)
  }

  /** Every value (uint32_t)now / 1000 can take lies in 0 .. WRAP_CORRECTION. */
  lemma RawTimeSteadyRange(now: int)
    requires 0 <= now < 0x1_0000_0000
    ensures 0 <= now / 1000 <= WRAP_CORRECTION
  {
  }

  /** For raw values the counter can produce, the corrected sequence never
      goes down, and prev <= offset + WRAP_CORRECTION, which holds at the
      start (both 0), keeps holding. */
  lemma CorrectNeverDecreases(offset: int, prev: int, current: int)
    requires 0 <= current <= WRAP_CORRECTION && prev <= offset + WRAP_CORRECTION
    ensures var (corrected, offset') := Correct(offset, prev, current);
      prev <= corrected && corrected <= offset' + WRAP_CORRECTION && offset <= offset'
  {
  }

  /** Whether time_steady t passes the range filter; comparing a str with an
      int bound raises TypeError. */
  function Admits(start: Option<int>, stop: Option<int>, t: Leaf): (r: Result<bool, AcceptError>)
    ensures r.Failure? <==> t.Text? && (start.Some? || stop.Some?)
    ensures r == Success(false) <==>
      t.Num? && ((start.Some? && t.n < start.value) || (stop.Some? && t.n > stop.value))
  {
    if start.Some? && t.Text? then Failure(TypeError)
    else if start.Some? && t.n < start.value then Success(false)
    else if stop.Some? && t.Text? then Failure(TypeError)
    else if stop.Some? && t.n > stop.value then Success(false)
    else Success(true)
  }

  /** The settings main gives each processor. */
  datatype Settings = Settings(start: Option<int>, stop: Option<int>, launch: Option<int>, fixBcu: bool)

  /** The row of m before the correction: its expanded fields, then seq,
      srcSystem and srcComponent from the header. */
  function BaseRow(m: Message): Dict {
    var d := PutAll(Empty, FlattenFields(m.fields));
    Put(Put(Put(d, "seq", Num(m.header.sequence)), "srcSystem", Num(m.header.srcSystem)),
      "srcComponent", Num(m.header.srcComponent))
  }

  /** Whether accept corrects m's time_steady: the fix is on and m is an
      ELECTRICAL_STATE of the on-board computer. */
  predicate Corrects(s: Settings, m: Message) {
    s.fixBcu && m.className == "ELECTRICAL_STATE" && m.header.srcSystem == BCU_SYSTEM
  }

  /** The part of accept after the correction: the range filter, the
      time_steady_from_launch column and the removal of mavpackettype. None
      is a message the filter drops. */
  function Finish(s: Settings, d: Dict): (r: Result<Option<Dict>, AcceptError>)
    ensures Lookup(d, "time_steady").None? ==> r == Success(Some(Remove(d, "mavpackettype")))
    ensures r == Success(None) <==>
      Lookup(d, "time_steady").Some? && Admits(s.start, s.stop, Lookup(d, "time_steady").value) == Success(false)
    ensures r.Success? && r.value.Some? ==>
      var row := r.value.value;
      Lookup(row, "mavpackettype") == None
      && (forall k :: k != "mavpackettype" && k != "time_steady_from_launch" ==> Lookup(row, k) == Lookup(d, k))
      && (s.launch.Some? && Lookup(d, "time_steady").Some? ==>
            Lookup(d, "time_steady").value.Num?
            && Lookup(row, "time_steady_from_launch") == Some(Num(Lookup(d, "time_steady").value.n - s.launch.value)))
  {
    match Lookup(d, "time_steady")
    case None => Success(Some(Remove(d, "mavpackettype")))
    case Some(t) =>
      match Admits(s.start, s.stop, t)
      case Failure(e) => Failure(e)
      case Success(admitted) =>
        if !admitted then Success(None)
        else if s.launch.None? then Success(Some(Remove(d, "mavpackettype")))
        else if t.Text? then Failure(TypeError)
        else Success(Some(Remove(Put(d, "time_steady_from_launch", Num(t.n - s.launch.value)), "mavpackettype")))
  }

  /** The correction of accept for one component, given its offset and its
      previous corrected value: the row with the corrected time_steady, the
      new offset and the new previous value, or the exception raised. */
  function CorrectRow(d: Dict, offset: int, prev: int): (r: Result<(Dict, int, int), AcceptError>)
    ensures Lookup(d, "time_steady").None? <==> r == Failure(KeyError("time_steady"))
    ensures r == Failure(TypeError) <==> Lookup(d, "time_steady").Some? && Lookup(d, "time_steady").value.Text?
    ensures r.Success? ==>
      var (row, offset', prev') := r.value;
      var t := Lookup(d, "time_steady").value;
      t.Num? && (prev', offset') == Correct(offset, prev, t.n)
      && Lookup(row, "time_steady") == Some(Num(prev'))
      && forall k :: k != "time_steady" ==> Lookup(row, k) == Lookup(d, k)
  {
    match Lookup(d, "time_steady")
    case None => Failure(KeyError("time_steady"))
    case Some(t) =>
      if t.Text? then Failure(TypeError)
      else
        var (corrected, offset') := Correct(offset, prev, t.n);
        Success((Put(d, "time_steady", Num(corrected)), offset', corrected))
  }

  /** What accept does with a message: the row it writes (None where the
      filter drops the message) or the exception it raises, and the offsets
      and previous values per component afterwards. */
  datatype Outcome = Outcome(result: Result<Option<Dict>, AcceptError>, offsets: map<int, int>, prevs: map<int, int>)

  function Process(s: Settings, m: Message, offsets: map<int, int>, prevs: map<int, int>): Outcome {
    var d := BaseRow(m);
    if !Corrects(s, m) then Outcome(Finish(s, d), offsets, prevs)
    else
      var c := m.header.srcComponent;
      match CorrectRow(d, Get(offsets, c), Get(prevs, c))
      case Failure(e) => Outcome(Failure(e), offsets, prevs)
      case Success((row, offset, prev)) => Outcome(Finish(s, row), offsets[c := offset], prevs[c := prev])
  }

  /** Offsets only grow, only the message's own component is touched, and
      only when the correction applies. */
  lemma ProcessState(s: Settings, m: Message, offsets: map<int, int>, prevs: map<int, int>, c: int)
    ensures var o := Process(s, m, offsets, prevs);
      Get(offsets, c) <= Get(o.offsets, c)
      && ((!Corrects(s, m) || c != m.header.srcComponent) ==>
            Get(o.offsets, c) == Get(offsets, c) && Get(o.prevs, c) == Get(prevs, c))
  {
  }

  /** A corrected message that is written carries the component's new
      previous value as its time_steady. */
  lemma ProcessWritesCorrected(s: Settings, m: Message, offsets: map<int, int>, prevs: map<int, int>)
    requires Corrects(s, m)
    ensures var o := Process(s, m, offsets, prevs);
      o.result.Success? && o.result.value.Some? ==>
        Lookup(o.result.value.value, "time_steady") == Some(Num(Get(o.prevs, m.header.srcComponent)))
  {
  }

  /** The range filter drops exactly the messages whose (corrected)
      time_steady is a number outside the range; a message without
      time_steady is never dropped. */
  lemma ProcessDrops(s: Settings, m: Message, offsets: map<int, int>, prevs: map<int, int>)
    ensures var o := Process(s, m, offsets, prevs);
      var d := if Corrects(s, m) && CorrectRow(BaseRow(m), Get(offsets, m.header.srcComponent), Get(prevs, m.header.srcComponent)).Success?
        then CorrectRow(BaseRow(m), Get(offsets, m.header.srcComponent), Get(prevs, m.header.srcComponent)).value.0
        else BaseRow(m);
      (o.result == Success(None) <==>
         (!Corrects(s, m) || CorrectRow(BaseRow(m), Get(offsets, m.header.srcComponent), Get(prevs, m.header.srcComponent)).Success?)
         && Lookup(d, "time_steady").Some?
         && var t := Lookup(d, "time_steady").value;
            t.Num? && ((s.start.Some? && t.n < s.start.value) || (s.stop.Some? && t.n > s.stop.value)))
  {
  }

  /** The offset bound of CorrectNeverDecreases, for every component. */
  ghost predicate WithinWrap(offsets: map<int, int>, prevs: map<int, int>) {
    forall c :: 0 <= Get(offsets, c) && Get(prevs, c) <= Get(offsets, c) + WRAP_CORRECTION
  }

  /** When the raw time_steady of a corrected message is one the on-board
      counter can produce, the component's corrected value does not go down,
      whether the message is written, dropped or raises afterwards, and
      WithinWrap keeps holding. */
  lemma ProcessNeverDecreases(s: Settings, m: Message, offsets: map<int, int>, prevs: map<int, int>)
    requires WithinWrap(offsets, prevs)
    requires Corrects(s, m) && Lookup(BaseRow(m), "time_steady").Some?
    requires var t := Lookup(BaseRow(m), "time_steady").value; t.Num? && 0 <= t.n <= WRAP_CORRECTION
    ensures var o := Process(s, m, offsets, prevs);
      Get(prevs, m.header.srcComponent) <= Get(o.prevs, m.header.srcComponent) && WithinWrap(o.offsets, o.prevs)
  {
    var c := m.header.srcComponent;
    var t := Lookup(BaseRow(m), "time_steady").value;
    var (corrected, offset) := Correct(Get(offsets, c), Get(prevs, c), t.n);
    CorrectNeverDecreases(Get(offsets, c), Get(prevs, c), t.n);
    var o := Process(s, m, offsets, prevs);
    assert o.offsets == offsets[c := offset] && o.prevs == prevs[c := corrected];
    forall x ensures 0 <= Get(o.offsets, x) && Get(o.prevs, x) <= Get(o.offsets, x) + WRAP_CORRECTION {
      if x != c {
        assert Get(o.offsets, x) == Get(offsets, x) && Get(o.prevs, x) == Get(prevs, x);
      }
    }
  }

  /** The keys accept itself sets or removes. */
  predicate Reserved(k: string) {
    k in {"seq", "srcSystem", "srcComponent", "time_steady", "time_steady_from_launch", "mavpackettype"}
  }

  /** A written row holds every other scalar field of the message unchanged. */
  lemma ProcessKeepsFields(s: Settings, m: Message, offsets: map<int, int>, prevs: map<int, int>, k: nat)
    requires FieldNames(m.fields) && k < |m.fields| && m.fields[k].1.Scalar? && !Reserved(m.fields[k].0)
    ensures var o := Process(s, m, offsets, prevs);
      o.result.Success? && o.result.value.Some? ==>
        Lookup(o.result.value.value, m.fields[k].0) == Some(m.fields[k].1.leaf)
  {
    var name, leaf := m.fields[k].0, m.fields[k].1.leaf;
    var d := BaseRow(m);
    assert Lookup(d, name) == Some(leaf) by {
      ScalarFieldKept(m.fields, k);
    }
    if Corrects(s, m) {
      var c := m.header.srcComponent;
      var cr := CorrectRow(d, Get(offsets, c), Get(prevs, c));
      if cr.Success? {
        assert Lookup(cr.value.0, name) == Some(leaf);
      }
    }
  }

  /** The processor of one message stream (one message id, system and
      component). */
  class MsgProcessor {
    const settings: Settings
    /** bcu_electrical_time_steady_offsets and _prevs, read through Get. */
    var offsets: map<int, int>
    var prevs: map<int, int>
    var messageCount: nat
    /** The CSV writer's field names, taken from the first row written. */
    var fieldNames: Option<seq<string>>
    /** The rows written, oldest first. */
    var rows: seq<Dict>

    /** __init__, with the settings main assigns right after it. */
    constructor(settings: Settings)
      ensures this.settings == settings
      ensures offsets == map[] && prevs == map[] && messageCount == 0 && fieldNames == None && rows == []
      ensures WithinWrap(offsets, prevs)
    {
      this.settings := settings;
      offsets := map[];
      prevs := map[];
      messageCount := 0;
      fieldNames := None;
      rows := [];
    }

    /** accept: the row of m is built, corrected, filtered and written; a
        dropped message changes nothing but the correction state. */
    method Accept(m: Message) returns (r: Result<bool, AcceptError>)
      modifies this`offsets, this`prevs, this`messageCount, this`fieldNames, this`rows
      ensures var o := Process(settings, m, old(offsets), old(prevs));
        offsets == o.offsets && prevs == o.prevs
        && r == (if o.result.Failure? then Failure(o.result.error) else Success(o.result.value.Some?))
        && (r == Success(true) ==>
              rows == old(rows) + [o.result.value.value]
              && fieldNames == (if old(fieldNames).None? then Some(o.result.value.value.keys) else old(fieldNames)))
      ensures r != Success(true) ==> rows == old(rows) && fieldNames == old(fieldNames)
      ensures messageCount == old(messageCount) + (if r == Success(true) then 1 else 0)
    {
      var d := ExpandArrays(m.fields);
      d := Put(d, "seq", Num(m.header.sequence));
      d := Put(d, "srcSystem", Num(m.header.srcSystem));
      d := Put(d, "srcComponent", Num(m.header.srcComponent));
      if settings.fixBcu && m.className == "ELECTRICAL_STATE" && m.header.srcSystem == BCU_SYSTEM {
        var corrected := CorrectTimeSteady(d, m.header.srcComponent);
        if corrected.Failure? {
          return Failure(corrected.error);
        }
        d := corrected.value;
      }
      var row := Filter(d);
      if row.Failure? {
        return Failure(row.error);
      }
      if row.value.None? {
        return Success(false);
      }
      WriteRow(row.value.value);
      r := Success(true);
    }

    /** The ELECTRICAL_STATE correction for one component. */
    method CorrectTimeSteady(d: Dict, component: int) returns (r: Result<Dict, AcceptError>)
      modifies this`offsets, this`prevs
      ensures match CorrectRow(d, Get(old(offsets), component), Get(old(prevs), component))
        case Failure(e) => r == Failure(e) && offsets == old(offsets) && prevs == old(prevs)
        case Success((row, offset, prev)) =>
          r == Success(row) && offsets == old(offsets)[component := offset] && prevs == old(prevs)[component := prev]
    {
      var prev := Get(prevs, component);
      var current := Lookup(d, "time_steady");
      if current.None? {
        return Failure(KeyError("time_steady"));
      }
      if current.value.Text? {
        return Failure(TypeError);
      }
      var offset := Get(offsets, component);
      var corrected := current.value.n + offset;
      if corrected < prev {
        corrected := corrected + WRAP_CORRECTION;
        offset := offset + WRAP_CORRECTION;
      }
      offsets := offsets[component := offset];
      prevs := prevs[component := corrected];
      r := Success(Put(d, "time_steady", Num(corrected)));
    }

    /** The range filter and the columns after it, step by step. */
    method Filter(d0: Dict) returns (r: Result<Option<Dict>, AcceptError>)
      ensures r == Finish(settings, d0)
    {
      var d := d0;
      var ts := Lookup(d, "time_steady");
      if ts.Some? {
        var that := ts.value;
        if settings.start.Some? {
          if that.Text? {
            return Failure(TypeError);
          }
          if that.n < settings.start.value {
            return Success(None);
          }
        }
        if settings.stop.Some? {
          if that.Text? {
            return Failure(TypeError);
          }
          if that.n > settings.stop.value {
            return Success(None);
          }
        }
        if settings.launch.Some? {
          if that.Text? {
            return Failure(TypeError);
          }
          d := Put(d, "time_steady_from_launch", Num(that.n - settings.launch.value));
        }
      }
      d := Remove(d, "mavpackettype");
      r := Success(Some(d));
    }

    /** The writer is made on the first row, with that row's keys as its
        field names; every row is written and counted. */
    method WriteRow(d: Dict)
      modifies this`messageCount, this`fieldNames, this`rows
      ensures fieldNames == if old(fieldNames).None? then Some(d.keys) else old(fieldNames)
      ensures rows == old(rows) + [d] && messageCount == old(messageCount) + 1
    {
      if fieldNames.None? {
        fieldNames := Some(d.keys);
      }
      rows := rows + [d];
      messageCount := messageCount + 1;
    }
  }
}
