/** What the registers of a HyperLogLog depend on: the set of elements, and nothing else. */
module HllHistory {
  import opened Words
  import opened HllDense
  import opened HllSparse
  import opened Hll

  /** How a HyperLogLog came about. Elements are represented by their hashes. */
  datatype History =
    | Created
    | Adding(h: History, hash: Word)
    | Merging(h: History, other: History)
  {
    /** The elements added anywhere on the way. */
    ghost function Elements(): set<Word> {
      match this
      case Created => {}
      case Adding(h, hash) => h.Elements() + {hash}
      case Merging(h, other) => h.Elements() + other.Elements()
    }

    /** The registers, by what HyperLogLog.Add and MergeInto do. */
    function Outcome(): (r: seq<nat>)
      ensures |r| == REGISTERS
    {
      match this
      case Created => Repeat(0, REGISTERS)
      case Adding(h, hash) => Added(h.Outcome(), hash)
      case Merging(h, other) => Maxima(h.Outcome(), other.Outcome())
    }
  }

  /** Every register holds the longest pattern among the elements that belong to it. */
  ghost predicate Records(regs: seq<nat>, elements: set<Word>)
    requires |regs| == REGISTERS
  {
    forall i :: 0 <= i < REGISTERS ==> RecordsAt(regs[i], elements, i)
  }

  ghost predicate RecordsAt(value: nat, elements: set<Word>, i: nat) {
    && (forall e :: e in elements && RegisterOf(e) == i ==> Pattern(e) <= value)
    && (value == 0 || exists e :: e in elements && RegisterOf(e) == i && Pattern(e) == value)
  }

  lemma RecordsUnique(a: seq<nat>, b: seq<nat>, elements: set<Word>)
    requires |a| == |b| == REGISTERS && Records(a, elements) && Records(b, elements)
    ensures a == b
  {
    forall i | 0 <= i < REGISTERS ensures a[i] == b[i] {
      assert RecordsAt(a[i], elements, i) && RecordsAt(b[i], elements, i);
    }
  }

  lemma AddedRecords(regs: seq<nat>, elements: set<Word>, hash: Word)
    requires |regs| == REGISTERS && Records(regs, elements)
    ensures Records(Added(regs, hash), elements + {hash})
  {
    var r := Added(regs, hash);
    forall i | 0 <= i < REGISTERS ensures RecordsAt(r[i], elements + {hash}, i) {
      assert RecordsAt(regs[i], elements, i);
      if i == RegisterOf(hash) && Pattern(hash) > regs[i] {
        assert hash in elements + {hash} && Pattern(hash) == r[i];
      } else if r[i] != 0 {
        var e :| e in elements && RegisterOf(e) == i && Pattern(e) == regs[i];
        assert e in elements + {hash};
      }
    }
  }

  lemma MaximaRecords(a: seq<nat>, b: seq<nat>, ea: set<Word>, eb: set<Word>)
    requires |a| == |b| == REGISTERS && Records(a, ea) && Records(b, eb)
    ensures Records(Maxima(a, b), ea + eb)
  {
    var r := Maxima(a, b);
    forall i | 0 <= i < REGISTERS ensures RecordsAt(r[i], ea + eb, i) {
      assert RecordsAt(a[i], ea, i) && RecordsAt(b[i], eb, i);
      if r[i] != 0 {
        if a[i] > b[i] {
          var e :| e in ea && RegisterOf(e) == i && Pattern(e) == a[i];
          assert e in ea + eb;
        } else {
          var e :| e in eb && RegisterOf(e) == i && Pattern(e) == b[i];
          assert e in ea + eb;
        }
      }
    }
  }

  lemma {:induction false} OutcomeRecords(h: History)
    ensures Records(h.Outcome(), h.Elements())
  {
    match h
    case Created =>
    case Adding(h0, hash) =>
      OutcomeRecords(h0);
      AddedRecords(h0.Outcome(), h0.Elements(), hash);
    case Merging(a, b) =>
      OutcomeRecords(a);
      OutcomeRecords(b);
      MaximaRecords(a.Outcome(), b.Outcome(), a.Elements(), b.Elements());
  }

  /** Any order, any repetition and any split over merged objects of the same elements
      give the same registers. */
  lemma RegistersDependOnElementsOnly(h1: History, h2: History)
    requires h1.Elements() == h2.Elements()
    ensures h1.Outcome() == h2.Outcome()
  {
    OutcomeRecords(h1);
    OutcomeRecords(h2);
    RecordsUnique(h1.Outcome(), h2.Outcome(), h1.Elements());
  }

  /** The registers are those of the history. */
  ghost predicate Reflects(regs: seq<nat>, h: History) { regs == h.Outcome() }

  lemma ReflectsAdding(regs: seq<nat>, h: History, hash: Word)
    requires Reflects(regs, h)
    ensures Reflects(Added(regs, hash), Adding(h, hash))
  {
  }

  lemma ReflectsMerging(a: seq<nat>, b: seq<nat>, h: History, other: History)
    requires Reflects(a, h) && Reflects(b, other)
    ensures Reflects(Maxima(a, b), Merging(h, other))
  {
  }

  /** The elements added are those of the sequence. */
  ghost predicate Collects(h: History, hashes: seq<Word>) {
    forall e: Word :: e in h.Elements() <==> e in hashes
  }

  lemma CollectsMore(h: History, hashes: seq<Word>, hash: Word)
    requires Collects(h, hashes)
    ensures Collects(Adding(h, hash), hashes + [hash])
  {
  }

  method AddOne(o: HyperLogLog, hash: Word, maxBytes: nat, ghost h: History)
    requires o.Valid() && Reflects(o.Values(), h)
    modifies o, o.registers
    ensures o.Valid() && Reflects(o.Values(), Adding(h, hash))
    ensures o.registers == old(o.registers) || fresh(o.registers)
  {
    ReflectsAdding(o.Values(), h, hash);
    var _ := o.Add(hash, maxBytes);
  }

  /** An object built by a sequence of additions, whenever it was promoted on the way, has
      the registers of its history. */
  method AddAll(hashes: seq<Word>, maxBytes: nat) returns (o: HyperLogLog, ghost h: History)
    ensures fresh(o) && fresh(o.registers) && o.Valid() && Reflects(o.Values(), h)
    ensures Collects(h, hashes)
  {
    o := new HyperLogLog();
    h := Created;
    for i := 0 to |hashes|
      invariant fresh(o) && fresh(o.registers) && o.Valid() && Reflects(o.Values(), h)
      invariant Collects(h, hashes[..i])
    {
      AddOne(o, hashes[i], maxBytes, h);
      CollectsMore(h, hashes[..i], hashes[i]);
      assert hashes[..i] + [hashes[i]] == hashes[..i + 1];
      h := Adding(h, hashes[i]);
    }
    assert hashes[..|hashes|] == hashes;
  }

  // ----- PFMERGE

  /** The objects hs merged into h, one after the other. */
  function MergeAll(h: History, hs: seq<History>): History
    decreases |hs|
  {
    if hs == [] then h else Merging(MergeAll(h, hs[..|hs| - 1]), hs[|hs| - 1])
  }

  lemma {:induction false} MergeAllElements(h: History, hs: seq<History>, e: Word)
    ensures e in MergeAll(h, hs).Elements()
      <==> e in h.Elements() || exists i :: 0 <= i < |hs| && e in hs[i].Elements()
    decreases |hs|
  {
    if hs != [] {
      var n := |hs| - 1;
      MergeAllElements(h, hs[..n], e);
      assert forall i :: 0 <= i < n ==> hs[..n][i] == hs[i];
      if i :| 0 <= i < |hs| && e in hs[i].Elements() {
        if i < n { assert e in hs[..n][i].Elements(); }
      }
    }
  }

  lemma MergeAllMore(h: History, hs: seq<History>, j: nat)
    requires j < |hs|
    ensures MergeAll(h, hs[..j + 1]) == Merging(MergeAll(h, hs[..j]), hs[j])
  {
    assert hs[..j + 1][..j] == hs[..j];
  }

  /** No pattern is longer than a register can hold. */
  lemma {:induction false} OutcomeFits(h: History)
    ensures forall i :: 0 <= i < REGISTERS ==> h.Outcome()[i] <= REGISTER_MAX
  {
    OutcomeRecords(h);
    forall i | 0 <= i < REGISTERS ensures h.Outcome()[i] <= REGISTER_MAX {
      assert RecordsAt(h.Outcome()[i], h.Elements(), i);
    }
  }

  lemma RegistersFit(regs: seq<nat>, h: History)
    requires Reflects(regs, h)
    ensures |regs| == REGISTERS && forall i :: 0 <= i < REGISTERS ==> regs[i] <= REGISTER_MAX
  {
    OutcomeFits(h);
  }

  /** What pfmergeCommand does with the objects it finds: the maxima of the destination and of all
      others are written into the destination, which becomes dense. */
  method Merge(dest: HyperLogLog, ghost h: History, others: seq<HyperLogLog>, ghost hs: seq<History>)
    requires dest.Valid() && Reflects(dest.Values(), h) && |others| == |hs|
    requires forall i :: 0 <= i < |others| ==> others[i].Valid() && Reflects(others[i].Values(), hs[i])
    modifies dest, dest.registers
    ensures dest.Valid() && dest.dense && !dest.cacheValid
    ensures Reflects(dest.Values(), MergeAll(h, hs))
  {
    var max := CollectMaxima(dest, h, others, hs);
    RegistersFit(max[..], MergeAll(h, hs));
    dest.SparseToDense();
    WriteRegisters(dest.registers, max);
    dest.cacheValid := false;
  }

  /** `memset(max, 0, sizeof(max))` and the first hllMerge. */
  method StartMaxima(dest: HyperLogLog, ghost h: History) returns (max: array<nat>)
    requires dest.Valid() && Reflects(dest.Values(), h)
    ensures fresh(max) && max.Length == REGISTERS && Reflects(max[..], h)
  {
    max := new nat[REGISTERS](_ => 0);
    ghost var zeros := max[..];
    dest.MergeInto(max);
    assert max[..] == Maxima(zeros, h.Outcome()) == h.Outcome();
  }

  /** hllMerge over the destination and the others. */
  method CollectMaxima(dest: HyperLogLog, ghost h: History, others: seq<HyperLogLog>, ghost hs: seq<History>)
    returns (max: array<nat>)
    requires dest.Valid() && Reflects(dest.Values(), h) && |others| == |hs|
    requires forall i :: 0 <= i < |others| ==> others[i].Valid() && Reflects(others[i].Values(), hs[i])
    ensures fresh(max) && max.Length == REGISTERS && Reflects(max[..], MergeAll(h, hs))
  {
    max := StartMaxima(dest, h);
    ghost var m := h;
    for j := 0 to |others|
      invariant max.Length == REGISTERS && Reflects(max[..], m) && m == MergeAll(h, hs[..j])
    {
      MergeOne(max, others[j], m, hs[j]);
      MergeAllMore(h, hs, j);
      m := Merging(m, hs[j]);
    }
    assert hs[..|hs|] == hs;
  }

  method MergeOne(max: array<nat>, o: HyperLogLog, ghost a: History, ghost b: History)
    requires max.Length == REGISTERS && Reflects(max[..], a) && o.Valid() && Reflects(o.Values(), b)
    modifies max
    ensures Reflects(max[..], Merging(a, b))
  {
    ReflectsMerging(max[..], o.Values(), a, b);
    o.MergeInto(max);
  }

  method WriteRegisters(p: array<bv8>, max: array<nat>)
    requires p.Length == DENSE_BYTES + 1 && max.Length == REGISTERS
    requires forall i :: 0 <= i < REGISTERS ==> max[i] <= REGISTER_MAX
    modifies p
    ensures Registers(p[..]) == max[..]
  {
    for j := 0 to REGISTERS
      invariant forall i :: 0 <= i < j ==> Registers(p[..])[i] == max[i]
    {
      SetDense(p, j, max[j]);
    }
  }
}
