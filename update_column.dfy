/**
 * The column-update workload: an update plan (mask plus additive byte deltas)
 * built once per run, an initial population of the store, and per trial a
 * `setup` that picks a record and computes its expected bytes, one of two
 * strategies that rewrite the record, and a `teardown` that compares.
 */
module UpdateColumn {
  import opened Wrappers
  import opened Store
  import Rnd

  /** `gen_range(0..u8::MAX)` never yields 255. */
  const U8Max: nat := 255

  predicate IsRandomByte(b: Byte) {
    b < U8Max
  }

  /** The workload's part of the configuration; `to_update` is passed on its own. */
  datatype Config = Config(blockSize: nat, blockNum: nat, transactionPerBlock: bool)

  /** The update plan: `updates[i]` is added to byte `i` wherever `updateMask[i]` holds. */
  datatype Data = Data(updates: seq<Byte>, updateMask: seq<bool>)

  /** How many offsets a mask selects. */
  function CountTrue(m: seq<bool>): (c: nat)
    ensures c <= |m|
  {
    if m == [] then 0 else (if m[0] then 1 else 0) + CountTrue(m[1..])
  }

  lemma {:induction false} CountTrueSet(m: seq<bool>, j: nat)
    requires j < |m| && !m[j]
    ensures CountTrue(m[j := true]) == CountTrue(m) + 1
  {
    if j > 0 {
      assert m[j := true][1..] == m[1..][j - 1 := true];
      CountTrueSet(m[1..], j - 1);
    } else {
      assert m[j := true][1..] == m[1..];
    }
  }

  lemma {:induction false} CountTrueNone(m: seq<bool>)
    ensures CountTrue(m) == 0 <==> forall i :: 0 <= i < |m| ==> !m[i]
  {
    if m != [] {
      CountTrueNone(m[1..]);
      assert forall i :: 1 <= i < |m| ==> m[i] == m[1..][i - 1];
    }
  }

  lemma {:induction false} CountTrueAll(m: seq<bool>)
    ensures CountTrue(m) == |m| <==> forall i :: 0 <= i < |m| ==> m[i]
  {
    if m != [] {
      CountTrueAll(m[1..]);
      assert forall i :: 1 <= i < |m| ==> m[i] == m[1..][i - 1];
    }
  }

  /**
   * `Data::from_config`: `to_update` distinct offsets from the sampler, each
   * marked in the mask and given its own random delta; every other offset keeps
   * mask false and delta 0. `indexDraws` and `addDraws` are the generator's answers.
   */
  method FromConfig(config: Config, toUpdate: nat, indexDraws: seq<nat>, addDraws: seq<Byte>) returns (data: Data)
    requires config.blockSize > 0 && toUpdate <= config.blockSize
    requires Rnd.DrawsInRange(0, config.blockSize - 1, indexDraws, toUpdate)
    requires |addDraws| == toUpdate && forall k :: 0 <= k < toUpdate ==> IsRandomByte(addDraws[k])
    ensures |data.updateMask| == config.blockSize && |data.updates| == config.blockSize
    ensures CountTrue(data.updateMask) == toUpdate
    ensures var indices := Rnd.Sampled(0, config.blockSize - 1, indexDraws, toUpdate);
      (forall i :: 0 <= i < config.blockSize ==> (data.updateMask[i] <==> i in indices)) &&
      (forall k :: 0 <= k < toUpdate ==> indices[k] < config.blockSize && data.updates[indices[k]] == addDraws[k])
    ensures forall i :: 0 <= i < config.blockSize && !data.updateMask[i] ==> data.updates[i] == 0
    ensures forall i :: 0 <= i < config.blockSize ==> IsRandomByte(data.updates[i])
  {
    var indices := Rnd.GenerateDiffSequence(0, config.blockSize - 1, toUpdate, indexDraws);
    data := MarkIndices(config.blockSize, indices, addDraws);
  }

  /**
   * The marking loop of `Data::from_config`: offset `indices[k]` is marked and
   * given delta `addDraws[k]`.
   */
  method MarkIndices(blockSize: nat, indices: seq<nat>, addDraws: seq<Byte>) returns (data: Data)
    requires Rnd.Distinct(indices) && forall k :: 0 <= k < |indices| ==> indices[k] < blockSize
    requires |addDraws| == |indices| && forall k :: 0 <= k < |indices| ==> IsRandomByte(addDraws[k])
    ensures |data.updateMask| == blockSize && |data.updates| == blockSize
    ensures CountTrue(data.updateMask) == |indices|
    ensures forall i :: 0 <= i < blockSize ==> (data.updateMask[i] <==> i in indices)
    ensures forall k :: 0 <= k < |indices| ==> data.updates[indices[k]] == addDraws[k]
    ensures forall i :: 0 <= i < blockSize && !data.updateMask[i] ==> data.updates[i] == 0
    ensures forall i :: 0 <= i < blockSize ==> IsRandomByte(data.updates[i])
  {
    var updateMask := seq(blockSize, _ => false);
    var updates: seq<Byte> := seq(blockSize, _ => 0);
    CountTrueNone(updateMask);
    for k := 0 to |indices|
      invariant |updateMask| == blockSize && |updates| == blockSize
      invariant forall i :: 0 <= i < blockSize ==> (updateMask[i] <==> i in indices[..k])
      invariant forall j :: 0 <= j < k ==> updates[indices[j]] == addDraws[j]
      invariant forall i :: 0 <= i < blockSize && !updateMask[i] ==> updates[i] == 0
      invariant forall i :: 0 <= i < blockSize ==> IsRandomByte(updates[i])
      invariant CountTrue(updateMask) == k
    {
      var index := indices[k];
      assert index !in indices[..k];
      CountTrueSet(updateMask, index);
      updateMask := updateMask[index := true];
      updates := updates[index := addDraws[k]];
      assert indices[..k + 1] == indices[..k] + [index];
    }
    assert indices[..|indices|] == indices;
    data := Data(updates, updateMask);
  }

  /** A plan can be applied to `bytes` when all three have one length. */
  predicate Fits(data: Data, bytes: seq<Byte>) {
    |data.updateMask| == |bytes| && |data.updates| == |bytes|
  }

  /** The record the plan turns `bytes` into: masked bytes get their delta added, wrapping. */
  function ApplyPlan(data: Data, bytes: seq<Byte>): (r: seq<Byte>)
    requires Fits(data, bytes)
    ensures |r| == |bytes|
  {
    seq(|bytes|, i requires 0 <= i < |bytes| =>
      if data.updateMask[i] then OverflowingAdd(bytes[i], data.updates[i]) else bytes[i])
  }

  /**
   * One iteration of `setup`'s loop: with offsets below `i` already planned and
   * the rest original, applying offset `i` plans one more offset.
   */
  lemma PlanStep(data: Data, was: seq<Byte>, e: seq<Byte>, i: nat)
    requires Fits(data, was) && i < |was|
    requires e == ApplyPlan(data, was)[..i] + was[i..]
    ensures e[i] == was[i]
    ensures data.updateMask[i] ==>
      e[i := OverflowingAdd(e[i], data.updates[i])] == ApplyPlan(data, was)[..i + 1] + was[i + 1..]
    ensures !data.updateMask[i] ==> e == ApplyPlan(data, was)[..i + 1] + was[i + 1..]
  {
    var plan := ApplyPlan(data, was);
    assert e[i] == was[i..][0];
    var e' := if data.updateMask[i] then e[i := OverflowingAdd(e[i], data.updates[i])] else e;
    var goal := plan[..i + 1] + was[i + 1..];
    assert |e'| == |goal|;
    forall k | 0 <= k < |goal| ensures e'[k] == goal[k] {
      if k < i {
        assert e'[k] == plan[..i][k];
      } else if k > i {
        assert e'[k] == was[i..][k - i];
      }
    }
  }

  /** With no offset selected the plan leaves a record as it is. */
  lemma NothingSelectedKeepsBytes(data: Data, bytes: seq<Byte>)
    requires Fits(data, bytes) && CountTrue(data.updateMask) == 0
    ensures ApplyPlan(data, bytes) == bytes
  {
    CountTrueNone(data.updateMask);
  }

  /** With every offset selected each byte becomes `original + delta mod 256`. */
  lemma EverythingSelectedAddsEverywhere(data: Data, bytes: seq<Byte>)
    requires Fits(data, bytes) && CountTrue(data.updateMask) == |bytes|
    ensures forall i :: 0 <= i < |bytes| ==>
      ApplyPlan(data, bytes)[i] as int == (bytes[i] as int + data.updates[i] as int) % 256
  {
    CountTrueAll(data.updateMask);
  }

  /** Deltas vanish off the mask, so the mask adds nothing to the plan's effect. */
  lemma ZeroDeltasOffMask(data: Data, bytes: seq<Byte>)
    requires Fits(data, bytes)
    requires forall i :: 0 <= i < |bytes| && !data.updateMask[i] ==> data.updates[i] == 0
    ensures forall i :: 0 <= i < |bytes| ==>
      ApplyPlan(data, bytes)[i] as int == (bytes[i] as int + data.updates[i] as int) % 256
  {
  }

  /**
   * The splices `run_splices` issues for a record read as `was`, from offset
   * `i` on: one `(offset, new byte)` pair per selected offset, in offset order.
   */
  function SpliceList(data: Data, was: seq<Byte>, i: nat): (r: seq<(nat, Byte)>)
    requires Fits(data, was) && i <= |was|
    ensures forall k :: 0 <= k < |r| ==> i <= r[k].0 < |was|
    decreases |was| - i
  {
    if i == |was| then [] else SpliceAt(data, was, i) + SpliceList(data, was, i + 1)
  }

  /** The splice offset `i` contributes: one pair if it is selected, none otherwise. */
  function SpliceAt(data: Data, was: seq<Byte>, i: nat): (r: seq<(nat, Byte)>)
    requires Fits(data, was) && i < |was|
  {
    if data.updateMask[i] then [(i, OverflowingAdd(was[i], data.updates[i]))] else []
  }

  /** Issuing offset `i`'s splice turns byte `i` into the plan's byte and touches nothing else. */
  lemma SpliceAtApplied(data: Data, was: seq<Byte>, i: nat, b: seq<Byte>)
    requires Fits(data, was) && i < |was| && |b| == |was|
    ensures ApplySplices(b, SpliceAt(data, was, i)) ==
      if data.updateMask[i] then b[i := ApplyPlan(data, was)[i]] else b
  {
    var head := SpliceAt(data, was, i);
    if data.updateMask[i] {
      assert head[..0] == [];
      SpliceOne(b, i, ApplyPlan(data, was)[i]);
    }
  }

  /** The splice list has one entry per selected offset from `i` on. */
  lemma {:induction false} SpliceListLength(data: Data, was: seq<Byte>, i: nat)
    requires Fits(data, was) && i <= |was|
    ensures |SpliceList(data, was, i)| == CountTrue(data.updateMask[i..])
    decreases |was| - i
  {
    if i < |was| {
      SpliceListLength(data, was, i + 1);
      assert data.updateMask[i..][1..] == data.updateMask[i + 1..];
    } else {
      assert data.updateMask[i..] == [];
    }
  }

  /** Each entry names a selected offset and carries that byte plus its delta. */
  lemma {:induction false} SpliceListEntries(data: Data, was: seq<Byte>, i: nat)
    requires Fits(data, was) && i <= |was|
    ensures forall k :: 0 <= k < |SpliceList(data, was, i)| ==>
      var e := SpliceList(data, was, i)[k];
      data.updateMask[e.0] && e.1 == OverflowingAdd(was[e.0], data.updates[e.0])
    decreases |was| - i
  {
    if i < |was| {
      SpliceListEntries(data, was, i + 1);
      var r := SpliceList(data, was, i);
      var rest := SpliceList(data, was, i + 1);
      assert r == SpliceAt(data, was, i) + rest;
      forall k | 0 <= k < |r|
        ensures data.updateMask[r[k].0] && r[k].1 == OverflowingAdd(was[r[k].0], data.updates[r[k].0])
      {
        if data.updateMask[i] && k == 0 {
          assert r[0] == (i, OverflowingAdd(was[i], data.updates[i]));
        } else if data.updateMask[i] {
          assert r[k] == rest[k - 1];
          var e := rest[k - 1];
          assert data.updateMask[e.0] && e.1 == OverflowingAdd(was[e.0], data.updates[e.0]);
        } else {
          assert r[k] == rest[k];
          var e := rest[k];
          assert data.updateMask[e.0] && e.1 == OverflowingAdd(was[e.0], data.updates[e.0]);
        }
      }
    }
  }

  /** Offsets strictly ascend along the list. */
  lemma {:induction false} SpliceListAscending(data: Data, was: seq<Byte>, i: nat)
    requires Fits(data, was) && i <= |was|
    ensures forall p, q :: 0 <= p < q < |SpliceList(data, was, i)| ==>
      SpliceList(data, was, i)[p].0 < SpliceList(data, was, i)[q].0
    decreases |was| - i
  {
    if i < |was| {
      SpliceListAscending(data, was, i + 1);
      var r := SpliceList(data, was, i);
      var rest := SpliceList(data, was, i + 1);
      assert r == SpliceAt(data, was, i) + rest;
      forall p, q | 0 <= p < q < |r| ensures r[p].0 < r[q].0 {
        if data.updateMask[i] {
          assert r[q] == rest[q - 1];
          if p > 0 {
            assert r[p] == rest[p - 1];
          }
        } else {
          assert r[p] == rest[p] && r[q] == rest[q];
        }
      }
    }
  }

  /** Every selected offset from `i` on has an entry. */
  lemma {:induction false} SpliceListComplete(data: Data, was: seq<Byte>, i: nat)
    requires Fits(data, was) && i <= |was|
    ensures forall j :: i <= j < |was| && data.updateMask[j] ==>
      (j, OverflowingAdd(was[j], data.updates[j])) in SpliceList(data, was, i)
    decreases |was| - i
  {
    if i < |was| {
      SpliceListComplete(data, was, i + 1);
      assert SpliceList(data, was, i) == SpliceAt(data, was, i) + SpliceList(data, was, i + 1);
    }
  }

  /** The splices for the offsets below `i`, in the order the loop builds them. */
  function SplicesBelow(data: Data, was: seq<Byte>, i: nat): (r: seq<(nat, Byte)>)
    requires Fits(data, was) && i <= |was|
  {
    if i == 0 then [] else SplicesBelow(data, was, i - 1) + SpliceAt(data, was, i - 1)
  }

  /** The splices below `i` followed by those from `i` on are the whole list. */
  lemma {:induction false} SplicesBelowThenList(data: Data, was: seq<Byte>, i: nat)
    requires Fits(data, was) && i <= |was|
    ensures SplicesBelow(data, was, i) + SpliceList(data, was, i) == SpliceList(data, was, 0)
  {
    if i == 0 {
      assert SplicesBelow(data, was, 0) == [];
    } else {
      SplicesBelowThenList(data, was, i - 1);
      var below := SplicesBelow(data, was, i - 1);
      var at := SpliceAt(data, was, i - 1);
      var rest := SpliceList(data, was, i);
      assert SpliceList(data, was, i - 1) == at + rest;
      assert below + at + rest == below + (at + rest);
    }
  }

  /**
   * What `run_splices` promises of its splice list: one entry per selected offset,
   * each naming that offset and carrying its byte plus delta, offsets strictly
   * ascending, and no selected offset missing.
   */
  predicate SplicesMatchPlan(data: Data, was: seq<Byte>, splices: seq<(nat, Byte)>)
    requires Fits(data, was)
  {
    && |splices| == CountTrue(data.updateMask)
    && (forall k :: 0 <= k < |splices| ==>
          splices[k].0 < |was| && data.updateMask[splices[k].0] &&
          splices[k].1 == OverflowingAdd(was[splices[k].0], data.updates[splices[k].0]))
    && (forall p, q :: 0 <= p < q < |splices| ==> splices[p].0 < splices[q].0)
    && (forall j :: 0 <= j < |was| && data.updateMask[j] ==>
          (j, OverflowingAdd(was[j], data.updates[j])) in splices)
  }

  /** The splice list from offset 0 has every property `run_splices` promises. */
  lemma SpliceListFacts(data: Data, was: seq<Byte>)
    requires Fits(data, was)
    ensures SplicesMatchPlan(data, was, SpliceList(data, was, 0))
  {
    assert data.updateMask[0..] == data.updateMask;
    SpliceListLength(data, was, 0);
    SpliceListEntries(data, was, 0);
    SpliceListAscending(data, was, 0);
    SpliceListComplete(data, was, 0);
  }

  /** Applies the splices one after another, each as a one-byte `splice_bindata`. */
  function ApplySplices(bytes: seq<Byte>, splices: seq<(nat, Byte)>): (r: seq<Byte>)
    requires forall k :: 0 <= k < |splices| ==> splices[k].0 < |bytes|
    ensures |r| == |bytes|
  {
    if splices == [] then bytes
    else
      var last := splices[|splices| - 1];
      Splice(ApplySplices(bytes, splices[..|splices| - 1]), last.0, [last.1])
  }

  lemma ApplySplicesSnoc(bytes: seq<Byte>, xs: seq<(nat, Byte)>, x: (nat, Byte))
    requires forall k :: 0 <= k < |xs| ==> xs[k].0 < |bytes|
    requires x.0 < |bytes|
    ensures forall k :: 0 <= k < |xs + [x]| ==> (xs + [x])[k].0 < |bytes|
    ensures ApplySplices(bytes, xs + [x]) == Splice(ApplySplices(bytes, xs), x.0, [x.1])
  {
    assert (xs + [x])[..|xs|] == xs;
  }

  lemma {:induction false} ApplySplicesConcat(bytes: seq<Byte>, xs: seq<(nat, Byte)>, ys: seq<(nat, Byte)>)
    requires forall k :: 0 <= k < |xs| ==> xs[k].0 < |bytes|
    requires forall k :: 0 <= k < |ys| ==> ys[k].0 < |bytes|
    ensures forall k :: 0 <= k < |xs + ys| ==> (xs + ys)[k].0 < |bytes|
    ensures ApplySplices(bytes, xs + ys) == ApplySplices(ApplySplices(bytes, xs), ys)
  {
    if ys == [] {
      assert xs + ys == xs;
    } else {
      var ys' := ys[..|ys| - 1];
      assert (xs + ys)[..|xs + ys| - 1] == xs + ys';
      ApplySplicesConcat(bytes, xs, ys');
    }
  }

  /** After byte `i` is set (or kept), the bytes above `i` are still the original ones. */
  lemma {:induction false} TailUntouched(was: seq<Byte>, i: nat, b: seq<Byte>, b': seq<Byte>)
    requires i < |was| && |b| == |was| && b[i..] == was[i..]
    requires |b'| == |b| && forall k :: 0 <= k < |b| && k != i ==> b'[k] == b[k]
    ensures b'[i + 1..] == was[i + 1..]
  {
    forall k | i + 1 <= k < |was| ensures b'[k] == was[k] {
      assert b[i..][k - i] == was[i..][k - i];
    }
  }

  /** Gluing byte `i` of the plan onto the plan's bytes above `i`. */
  lemma {:induction false} JoinAt(b: seq<Byte>, b': seq<Byte>, plan: seq<Byte>, i: nat)
    requires i < |b| && |b'| == |b| && |plan| == |b|
    requires b'[..i] == b[..i] && b'[i] == plan[i]
    ensures b'[..i + 1] + plan[i + 1..] == b[..i] + plan[i..]
  {
    var lhs := b'[..i + 1] + plan[i + 1..];
    var rhs := b[..i] + plan[i..];
    forall k | 0 <= k < |lhs| ensures lhs[k] == rhs[k] {
      if k < i {
        assert lhs[k] == b'[..i][k];
      }
    }
  }

  /**
   * Issuing the splice list from offset `i` on to a record whose bytes from `i`
   * on are still the original ones finishes the plan's work from `i` on.
   */
  lemma {:induction false} SplicesFinishPlan(data: Data, was: seq<Byte>, i: nat, b: seq<Byte>)
    requires Fits(data, was) && i <= |was|
    requires |b| == |was| && b[i..] == was[i..]
    ensures ApplySplices(b, SpliceList(data, was, i)) == b[..i] + ApplyPlan(data, was)[i..]
    decreases |was| - i
  {
    var plan := ApplyPlan(data, was);
    if i == |was| {
      assert b[..i] == b;
    } else {
      var head := SpliceAt(data, was, i);
      var rest := SpliceList(data, was, i + 1);
      assert SpliceList(data, was, i) == head + rest;
      ApplySplicesConcat(b, head, rest);
      assert b[i] == was[i] by { assert b[i..][0] == was[i..][0]; }
      var b' := if data.updateMask[i] then b[i := plan[i]] else b;
      SpliceAtApplied(data, was, i, b);
      TailUntouched(was, i, b, b');
      SplicesFinishPlan(data, was, i + 1, b');
      JoinAt(b, b', plan, i);
    }
  }

  /** Splicing only the changed bytes gives the record a full rebuild writes. */
  lemma SplicesRebuildPlan(data: Data, was: seq<Byte>)
    requires Fits(data, was)
    ensures ApplySplices(was, SpliceList(data, was, 0)) == ApplyPlan(data, was)
  {
    SplicesFinishPlan(data, was, 0, was);
  }

  /** The records the initial population writes: record `i` holds `columns[i]`. */
  function InitialRecords(columns: seq<seq<Byte>>): (m: map<nat, seq<Byte>>)
    ensures forall i :: 0 <= i < |columns| ==> i in m && m[i] == columns[i]
    ensures forall i :: i in m ==> i < |columns|
  {
    map i | 0 <= i < |columns| :: columns[i]
  }

  /** Writing column `i` after columns `0 .. i` gives the records of columns `0 .. i + 1`. */
  lemma InitialRecordsSnoc(columns: seq<seq<Byte>>, i: nat)
    requires i < |columns|
    ensures InitialRecords(columns[..i + 1]) == InitialRecords(columns[..i])[i := columns[i]]
  {
    var lhs := InitialRecords(columns[..i + 1]);
    var rhs := InitialRecords(columns[..i])[i := columns[i]];
    assert lhs.Keys == rhs.Keys;
  }

  /** Overwriting a key after a merge is overwriting it in the merged-in map. */
  lemma MergeThenUpdate(a: map<nat, seq<Byte>>, b: map<nat, seq<Byte>>, k: nat, v: seq<Byte>)
    ensures (a + b)[k := v] == a + b[k := v]
  {
    assert ((a + b)[k := v]).Keys == (a + b[k := v]).Keys;
  }

  /** One random column per record, `blockSize` bytes each, as `generate_initial_data` draws them. */
  predicate ColumnsFit(config: Config, columns: seq<seq<Byte>>) {
    |columns| == config.blockNum &&
    forall i :: 0 <= i < |columns| ==>
      |columns[i]| == config.blockSize &&
      forall j :: 0 <= j < config.blockSize ==> IsRandomByte(columns[i][j])
  }

  /** The benchmark state threaded through the trials. */
  class State {
    var filled: bool
    const config: Config
    const space: Space
    const data: Data
    var id: nat
    var expected: seq<Byte>

    /** `State::try_new` once the `bindata` space has been found: builds the plan, nothing is stored yet. */
    constructor (config: Config, space: Space, toUpdate: nat, indexDraws: seq<nat>, addDraws: seq<Byte>)
      requires config.blockSize > 0 && toUpdate <= config.blockSize
      requires Rnd.DrawsInRange(0, config.blockSize - 1, indexDraws, toUpdate)
      requires |addDraws| == toUpdate && forall k :: 0 <= k < toUpdate ==> IsRandomByte(addDraws[k])
      ensures Valid() && !filled
      ensures this.config == config && this.space == space
      ensures CountTrue(data.updateMask) == toUpdate
      ensures var indices := Rnd.Sampled(0, config.blockSize - 1, indexDraws, toUpdate);
        (forall i :: 0 <= i < config.blockSize ==> (data.updateMask[i] <==> i in indices)) &&
        (forall k :: 0 <= k < toUpdate ==> indices[k] < config.blockSize && data.updates[indices[k]] == addDraws[k])
      ensures forall i :: 0 <= i < config.blockSize && !data.updateMask[i] ==> data.updates[i] == 0
      ensures forall i :: 0 <= i < config.blockSize ==> IsRandomByte(data.updates[i])
      ensures id == 0 && expected == []
    {
      var data := FromConfig(config, toUpdate, indexDraws, addDraws);
      this.filled := false;
      this.config := config;
      this.space := space;
      this.data := data;
      this.id := 0;
      this.expected := [];
    }

    /** Every record `0 .. blockNum` is present and `blockSize` bytes long. */
    ghost predicate Populated()
      reads this, space
    {
      forall k :: 0 <= k < config.blockNum ==> k in space.records && |space.records[k]| == config.blockSize
    }

    ghost predicate Valid()
      reads this, space
    {
      |data.updateMask| == config.blockSize && |data.updates| == config.blockSize &&
      (filled ==> id < config.blockNum && Populated())
    }

    /** What `setup` leaves: `expected` is the plan applied to the current record. */
    ghost predicate Prepared()
      reads this, space
    {
      Valid() && filled && expected == ApplyPlan(data, space.records[id])
    }
  }

  /** `generate_initial_data`: puts one column of random bytes under each id `0 .. blockNum`. */
  method GenerateInitialData(state: State, columns: seq<seq<Byte>>)
    requires ColumnsFit(state.config, columns)
    modifies state.space
    ensures state.space.records == old(state.space.records) + InitialRecords(columns)
  {
    var columnNum := state.config.blockNum;
    var columnSize := state.config.blockSize;
    ghost var before := state.space.records;
    for i := 0 to columnNum
      invariant state.space.records == before + InitialRecords(columns[..i])
    {
      var newColumn := new Byte[columnSize](_ => 0);
      for j := 0 to columnSize
        invariant newColumn[..j] == columns[i][..j]
        invariant state.space.records == before + InitialRecords(columns[..i])
      {
        newColumn[j] := columns[i][j];
      }
      assert newColumn[..] == columns[i];
      state.space.Put(i, newColumn[..]);
      InitialRecordsSnoc(columns, i);
      MergeThenUpdate(before, InitialRecords(columns[..i]), i, columns[i]);
    }
    assert columns[..columnNum] == columns;
  }

  /**
   * `setup`: populates the store on the first call only, then takes record
   * `idDraw` (the generator's `gen_range(0..block_num)`) and computes `expected`.
   */
  method Setup(state: State, idDraw: nat, columns: seq<seq<Byte>>)
    requires state.Valid()
    requires idDraw < state.config.blockNum
    requires ColumnsFit(state.config, columns)
    modifies state, state.space
    ensures state.Prepared()
    ensures state.filled && state.id == idDraw
    ensures old(state.filled) ==> state.space.records == old(state.space.records)
    ensures !old(state.filled) ==> state.space.records == old(state.space.records) + InitialRecords(columns)
    ensures state.expected == ApplyPlan(state.data, state.space.records[idDraw])
  {
    if !state.filled {
      GenerateInitialData(state, columns);
      state.filled := true;
    }
    var id := idDraw;
    var current := state.space.Get(id);
    ghost var was := current.value;
    state.id := id;
    state.expected := current.value;
    ghost var records := state.space.records;
    assert state.expected == ApplyPlan(state.data, was)[..0] + was[0..];
    for i := 0 to |state.data.updateMask|
      invariant state.filled && state.id == id && state.space.records == records
      invariant state.expected == ApplyPlan(state.data, was)[..i] + was[i..]
    {
      if state.data.updateMask[i] {
        PlanStep(state.data, was, state.expected, i);
        var res := OverflowingAdd(state.expected[i], state.data.updates[i]);
        state.expected := state.expected[i := res];
      } else {
        PlanStep(state.data, was, state.expected, i);
      }
    }
    assert state.expected == ApplyPlan(state.data, was) by {
      assert was[|was|..] == [];
      assert ApplyPlan(state.data, was)[..|was|] == ApplyPlan(state.data, was);
    }
  }

  /** `run_copy`: reads the record, rebuilds all of it from the plan, and puts it back. */
  method RunCopy(state: State)
    requires state.Valid() && state.filled
    modifies state.space
    ensures state.Valid()
    ensures state.space.records == old(state.space.records)[state.id := ApplyPlan(state.data, old(state.space.records)[state.id])]
  {
    var was := state.space.Get(state.id);
    var current := was.value;
    var updated: seq<Byte> := [];
    for i := 0 to |state.data.updateMask|
      invariant state.space.records == old(state.space.records)
      invariant updated == ApplyPlan(state.data, current)[..i]
    {
      if !state.data.updateMask[i] {
        updated := updated + [current[i]];
      } else {
        var res := OverflowingAdd(current[i], state.data.updates[i]);
        updated := updated + [res];
      }
    }
    assert updated == ApplyPlan(state.data, current);
    state.space.Put(state.id, updated);
  }

  /** The splice-building loop of `run_splices`. */
  method MakeSplices(data: Data, was: seq<Byte>) returns (splices: seq<(nat, Byte)>)
    requires Fits(data, was)
    ensures splices == SpliceList(data, was, 0)
    ensures SplicesMatchPlan(data, was, splices)
  {
    splices := [];
    for i := 0 to |data.updateMask|
      invariant splices == SplicesBelow(data, was, i)
    {
      if !data.updateMask[i] {
        continue;
      }
      var res := OverflowingAdd(was[i], data.updates[i]);
      var offset := i * 1;  // `i * size_of::<u8>()`
      splices := splices + [(offset, res)];
    }
    SplicesBelowThenList(data, was, |was|);
    SpliceListFacts(data, was);
  }

  /**
   * `run_splices`: one one-byte `splice_bindata` per selected offset, in offset
   * order. The source runs the same splices inside a transaction when
   * `transactionPerBlock` is set; commit and abort are not modelled.
   */
  method RunSplices(state: State)
    requires state.Valid() && state.filled
    modifies state.space
    ensures state.Valid()
    ensures state.space.records == old(state.space.records)[state.id := ApplyPlan(state.data, old(state.space.records)[state.id])]
  {
    var was := state.space.Get(state.id);
    var current := was.value;
    var splices := MakeSplices(state.data, current);
    ApplySplicesTo(state.space, state.id, splices);
    SplicesRebuildPlan(state.data, current);
  }

  /** The `apply_splices` closure: issues the splices in list order against record `id`. */
  method ApplySplicesTo(space: Space, id: nat, splices: seq<(nat, Byte)>)
    requires id in space.records
    requires forall k :: 0 <= k < |splices| ==> splices[k].0 < |space.records[id]|
    modifies space
    ensures space.records == old(space.records)[id := ApplySplices(old(space.records)[id], splices)]
  {
    ghost var current := space.records[id];
    for k := 0 to |splices|
      invariant space.records == old(space.records)[id := ApplySplices(current, splices[..k])]
    {
      var (offset, val) := splices[k];
      ApplySplicesSnoc(current, splices[..k], splices[k]);
      assert splices[..k + 1] == splices[..k] + [splices[k]];
      space.SpliceBindata(id, offset, [val]);
    }
    assert splices[..|splices|] == splices;
  }

  /** `teardown`: the assertion `expected == stored record`, reported as `ok`. */
  method Teardown(state: State) returns (ok: bool)
    requires state.Valid() && state.filled
    ensures ok <==> state.expected == state.space.records[state.id]
  {
    var current := state.space.Get(state.id);
    ok := state.expected == current.value;
  }

  /**
   * One trial of the workload: `setup`, the strategy `method` selects (0 is
   * `run_copy`, anything else `run_splices`), then `teardown`, whose check
   * always passes. The first trial populates the store with `columns`; after
   * that population only record `id` changes, and it becomes the plan applied
   * to it.
   */
  method Trial(state: State, strategy: nat, idDraw: nat, columns: seq<seq<Byte>>) returns (ok: bool)
    requires state.Valid()
    requires idDraw < state.config.blockNum
    requires ColumnsFit(state.config, columns)
    modifies state, state.space
    ensures ok
    ensures state.Valid() && state.filled && state.id == idDraw
    ensures old(state.filled) ==> state.space.records == old(state.space.records)[idDraw := state.expected]
    ensures !old(state.filled) ==>
      state.space.records == (old(state.space.records) + InitialRecords(columns))[idDraw := state.expected]
    ensures old(state.filled) ==> state.expected == ApplyPlan(state.data, old(state.space.records)[idDraw])
    ensures !old(state.filled) ==>
      state.expected == ApplyPlan(state.data, (old(state.space.records) + InitialRecords(columns))[idDraw])
    ensures state.space.records[idDraw] == state.expected
  {
    Setup(state, idDraw, columns);
    if strategy == 0 {
      RunCopy(state);
    } else {
      RunSplices(state);
    }
    ok := Teardown(state);
  }
}
