/** The server's tensor store: names, ids and contents. */
module TensorStore {
  import opened Words
  import opened Wire
  import opened Codecs
  import Framing
  import Quant

  /** What the store keeps of a tensor; `data` is the content of its device buffer. */
  datatype Stored = Stored(
    id: U32, ggufType: U32, allocationBytes: U64, contentHash: U64, name: Bytes, dims: seq<U64>, elementCount: U64,
    data: Bytes)

  datatype Problem = UnknownType | WrongSize | TooLarge | Conflict | IdsExhausted | NoMemory

  datatype Outcome = Kept(tensor: Stored) | Rejected(problem: Problem)

  // ---- Byte counts ----

  function TypeOf(ggufType: U32): Quant.GgufType {
    if ggufType == 12 then Quant.Q4_K
    else if ggufType == 14 then Quant.Q6_K
    else if ggufType == 0 then Quant.F32
    else if ggufType == 1 then Quant.F16
    else Quant.Other
  }

  /** The byte count the store computes, in 64-bit arithmetic that wraps. */
  function ExpectedBytes(t: Quant.GgufType, count: U64): U64
    requires t in {Quant.Q4_K, Quant.Q6_K, Quant.F32, Quant.F16}
  {
    if t.Q4_K? || t.Q6_K? then (count + 255) % MODULUS / 256 * Quant.BlockBytes(t) % MODULUS
    else count * Quant.BlockBytes(t) % MODULUS
  }

  /** For a payload's data the check means what it says on block types: a sum that wraps gives zero
      bytes, which no payload has. */
  lemma BlockSizeCheckIsExact(t: Quant.GgufType, count: U64, bytes: nat)
    requires t in {Quant.Q4_K, Quant.Q6_K} && 0 < bytes <= Framing.MAX_PAYLOAD
    ensures ExpectedBytes(t, count) == bytes <==> Quant.TensorBytes(t, count) == bytes
  {
    var total := count + 255;
    BlockCount(count);
    BlocksFit(total / 256);
    assert Quant.BlockBytes(t) == 144 || Quant.BlockBytes(t) == 210;
  }

  /** Rounding up to whole blocks is exact, or wraps to zero. */
  lemma BlockCount(count: U64)
    ensures var total := count + 255;
            if total < MODULUS then total % MODULUS == total
            else total % MODULUS / 256 == 0 && total / 256 == 0x100_0000_0000_0000
    ensures (count + 255) / 256 <= 0x100_0000_0000_0000
  {}

  lemma BlocksFit(blocks: nat)
    requires blocks <= 0x100_0000_0000_0000
    ensures blocks * 144 % MODULUS == blocks * 144 && blocks * 210 % MODULUS == blocks * 210
  {}

  /** For F32 and F16 it lets a wrong size pass exactly when the true byte count needs more than 64
      bits and its low 64 bits are the payload's size. */
  lemma FlatSizeCheck(t: Quant.GgufType, count: U64, bytes: nat)
    requires t in {Quant.F32, Quant.F16} && 0 < bytes <= Framing.MAX_PAYLOAD
    ensures ExpectedBytes(t, count) == bytes && Quant.TensorBytes(t, count) != bytes
            <==> count * Quant.BlockBytes(t) >= MODULUS && count * Quant.BlockBytes(t) % MODULUS == bytes
  {
    assert Quant.TensorBytes(t, count) == count * Quant.BlockBytes(t);
  }

  predicate SameContent(s: Stored, t: Tensor) {
    && s.ggufType == t.ggufType && |s.data| == |t.data| && s.contentHash == t.contentHash && s.dims == t.dims
    && s.elementCount == t.elementCount
  }

  /** Whatever was stored is still stored, under the same name and id. */
  ghost predicate Extends(
    names0: map<Bytes, U32>, tensors0: map<U32, Stored>, names: map<Bytes, U32>, tensors: map<U32, Stored>)
  {
    && (forall n | n in names0 :: n in names && names[n] == names0[n])
    && (forall id | id in tensors0 :: id in tensors && tensors[id] == tensors0[id])
  }

  // ---- What one load does ----

  /** What a store holds. */
  datatype State = State(names: map<Bytes, U32>, tensors: map<U32, Stored>, nextId: U32)

  /** Why a tensor is rejected, if it is; the device's memory is asked last. */
  function RefusalIn(s: State, maxBytes: nat, t: Tensor, memory: bool): Option<Problem> {
    var kind := TypeOf(t.ggufType);
    if kind.Other? then Some(UnknownType)
    else if |t.data| != ExpectedBytes(kind, t.elementCount) then Some(WrongSize)
    else if |t.data| > maxBytes then Some(TooLarge)
    else if t.name in s.names then
      if s.names[t.name] in s.tensors && SameContent(s.tensors[s.names[t.name]], t) then None else Some(Conflict)
    else if s.nextId == 0 then Some(IdsExhausted)
    else if !memory then Some(NoMemory)
    else None
  }

  /** The types by number, and the sizes a store with room takes under a new name. */
  lemma SizesInNumbers(s: State, maxBytes: nat, t: Tensor, n: nat)
    requires t.name !in s.names && s.nextId != 0 && |t.data| <= maxBytes && n < 0x1_0000_0000
    ensures t.ggufType == 12 && t.elementCount == 256 * n ==>
              (RefusalIn(s, maxBytes, t, true) == None <==> |t.data| == 144 * n)
    ensures t.ggufType == 14 && t.elementCount == 256 * n ==>
              (RefusalIn(s, maxBytes, t, true) == None <==> |t.data| == 210 * n)
    ensures t.ggufType == 0 && t.elementCount == n ==> (RefusalIn(s, maxBytes, t, true) == None <==> |t.data| == 4 * n)
    ensures t.ggufType == 1 && t.elementCount == n ==> (RefusalIn(s, maxBytes, t, true) == None <==> |t.data| == 2 * n)
    ensures t.ggufType !in {0, 1, 12, 14} ==> RefusalIn(s, maxBytes, t, true) == Some(UnknownType)
  {
    ExpectedInNumbers(n);
    hide ExpectedBytes;
  }

  lemma ExpectedInNumbers(n: nat)
    requires n < 0x1_0000_0000
    ensures ExpectedBytes(Quant.Q4_K, 256 * n) == 144 * n && ExpectedBytes(Quant.Q6_K, 256 * n) == 210 * n
    ensures ExpectedBytes(Quant.F32, n) == 4 * n && ExpectedBytes(Quant.F16, n) == 2 * n
  {
    assert (256 * n + 255) % MODULUS / 256 == n;
  }

  /** Such a tensor: four bytes that are said to be 2^62 + 1 floats decode as a valid tensor, and any
      store with room for them keeps it. */
  lemma WrappedSizePasses(s: State, maxBytes: nat, name: Bytes, data: Bytes)
    requires 1 <= |name| <= 1024 && |data| == 4 <= maxBytes && name !in s.names && s.nextId != 0
    ensures var count := 0x4000_0000_0000_0001;
            var t := Tensor(0, [count], count, Hash(data), name, data);
            ValidTensor(t) && RefusalIn(s, maxBytes, t, true) == None && Quant.TensorBytes(Quant.F32, count) != |t.data|
  {
    hide Hash;
    var dims: seq<U64> := [0x4000_0000_0000_0001];
    assert dims[..0] == [];
    assert Product(dims) == Product(dims[..0]) * dims[0];
  }

  /** The record of an accepted tensor: the one stored under its name, or a new one. */
  function RecordOf(s: State, t: Tensor, allocation: U64): Stored {
    if t.name in s.names && s.names[t.name] in s.tensors then s.tensors[s.names[t.name]]
    else Stored(s.nextId, t.ggufType, allocation, t.contentHash, t.name, t.dims, t.elementCount, t.data)
  }

  /** The store after an accepted tensor. */
  function Accepted(s: State, t: Tensor, allocation: U64): State {
    if t.name in s.names then s
    else State(s.names[t.name := s.nextId], s.tensors[s.nextId := RecordOf(s, t, allocation)],
               (s.nextId + 1) % 0x1_0000_0000)
  }

  /** Names and ids correspond one to one; ids count up from 1, so none is zero and none comes twice,
      and once the counter has wrapped to 0 there is no next one. */
  ghost predicate Consistent(s: State, issued: seq<U32>) {
    && (forall n | n in s.names :: s.names[n] in s.tensors && s.tensors[s.names[n]].name == n)
    && (forall id | id in s.tensors ::
          s.tensors[id].id == id && s.tensors[id].name in s.names && s.names[s.tensors[id].name] == id)
    && |issued| < 0x1_0000_0000 && s.nextId == (|issued| + 1) % 0x1_0000_0000
    && (forall k | 0 <= k < |issued| :: issued[k] == k + 1)
    && (forall id: U32 :: id in s.tensors <==> 1 <= id <= |issued|)
    && (forall id | id in s.tensors :: FromPayload(s.tensors[id]))
  }

  /** A record of a decoded payload whose size was checked. */
  ghost predicate FromPayload(s: Stored) {
    && s.contentHash == Hash(s.data) && 0 < |s.data| <= Framing.MAX_PAYLOAD && Product(s.dims) == s.elementCount
    && !TypeOf(s.ggufType).Other? && |s.data| == ExpectedBytes(TypeOf(s.ggufType), s.elementCount)
  }

  lemma AcceptedIsConsistent(s: State, issued: seq<U32>, t: Tensor, allocation: U64)
    requires Consistent(s, issued) && t.name !in s.names && s.nextId != 0
    requires FromPayload(RecordOf(s, t, allocation))
    ensures s.nextId !in s.tensors && Consistent(Accepted(s, t, allocation), issued + [s.nextId])
    ensures var after := Accepted(s, t, allocation); Extends(s.names, s.tensors, after.names, after.tensors)
  {
    hide FromPayload;
  }

  lemma NewRecord(s: State, maxBytes: nat, t: Tensor, memory: bool, allocation: U64)
    requires ValidTensor(t) && RefusalIn(s, maxBytes, t, memory) == None && t.name !in s.names
    ensures FromPayload(RecordOf(s, t, allocation))
  {
    hide Hash, ExpectedBytes, Product;
  }

  /** What the names of a consistent store lead to. */
  lemma NamedRecord(s: State, issued: seq<U32>, name: Bytes)
    requires Consistent(s, issued) && name in s.names
    ensures s.names[name] in s.tensors && s.tensors[s.names[name]].name == name
    ensures s.tensors[s.names[name]].id == s.names[name] && FromPayload(s.tensors[s.names[name]])
  {
    hide FromPayload;
  }

  /** The record of an accepted tensor has its name and content. */
  lemma AcceptedRecord(s: State, issued: seq<U32>, maxBytes: nat, t: Tensor, memory: bool, allocation: U64)
    requires Consistent(s, issued) && RefusalIn(s, maxBytes, t, memory) == None
    ensures RecordOf(s, t, allocation).name == t.name && SameContent(RecordOf(s, t, allocation), t)
  {
    hide FromPayload, ExpectedBytes;
  }

  class TensorStore {
    const maxBytes: nat
    var names: map<Bytes, U32>
    var tensors: map<U32, Stored>
    var nextId: U32
    /** Every id given out so far, in order. */
    ghost var issued: seq<U32>

    constructor (maxBytes: nat)
      ensures Valid() && this.maxBytes == maxBytes && names == map[] && tensors == map[] && issued == []
    {
      this.maxBytes := maxBytes;
      names, tensors, nextId, issued := map[], map[], 1, [];
    }

    ghost predicate Valid()
      reads this
    {
      Consistent(Contents(), issued)
    }

    ghost function Contents(): State
      reads this
    {
      State(names, tensors, nextId)
    }

    ghost function Refusal(t: Tensor, memory: bool): Option<Problem>
      reads this
    {
      RefusalIn(Contents(), maxBytes, t, memory)
    }

    /** `store_tensor` of a decoded payload. `memory` says whether the device can allocate, `allocation` how
        much it takes. */
    method Store(t: Tensor, memory: bool, allocation: U64) returns (r: Outcome)
      requires Valid() && ValidTensor(t)
      modifies this
      ensures Valid() && Extends(old(names), old(tensors), names, tensors)
      ensures match old(Refusal(t, memory))
              case Some(problem) => r == Rejected(problem) && unchanged(this)
              case None => r == Kept(RecordOf(old(Contents()), t, allocation))
                           && Contents() == Accepted(old(Contents()), t, allocation)
      ensures r.Kept? ==> t.name in names && r.tensor.id == names[t.name] && r.tensor.id in tensors
                          && tensors[r.tensor.id] == r.tensor && r.tensor.name == t.name && SameContent(r.tensor, t)
      ensures r.Kept? && t.name in old(names) ==> unchanged(this)
      ensures r.Kept? && t.name !in old(names) ==>
                && r.tensor.data == t.data && r.tensor.id == old(nextId) && r.tensor.id !in old(tensors)
                && names == old(names)[t.name := r.tensor.id] && tensors == old(tensors)[r.tensor.id := r.tensor]
                && issued == old(issued) + [r.tensor.id]
    {
      hide Hash, Consistent, ExpectedBytes, ValidTensor, FromPayload;
      ghost var before := Contents();
      var kind := TypeOf(t.ggufType);
      if kind.Other? {
        return Rejected(UnknownType);
      }
      if |t.data| != ExpectedBytes(kind, t.elementCount) {
        return Rejected(WrongSize);
      }
      if |t.data| > maxBytes {
        return Rejected(TooLarge);
      }
      if t.name in names {
        NamedRecord(before, issued, t.name);
        var stored := tensors[names[t.name]];
        if !SameContent(stored, t) {
          return Rejected(Conflict);
        }
        return Kept(stored);
      }
      if nextId == 0 {
        return Rejected(IdsExhausted);
      }
      if !memory {
        return Rejected(NoMemory);
      }
      var stored := Stored(nextId, t.ggufType, allocation, t.contentHash, t.name, t.dims, t.elementCount, t.data);
      NewRecord(before, maxBytes, t, memory, allocation);
      AcceptedIsConsistent(before, issued, t, allocation);
      issued := issued + [nextId];
      nextId := (nextId + 1) % 0x1_0000_0000;
      names := names[t.name := stored.id];
      tensors := tensors[stored.id := stored];
      return Kept(stored);
    }

    /** A tensor that differs from the stored one in a single byte is a conflict, although only lengths,
        shapes and hashes are compared. */
    lemma SingleByteChangeConflicts(t: Tensor, memory: bool, k: nat)
      requires Valid() && t.contentHash == Hash(t.data)
      requires Refusal(t, memory) !in {Some(UnknownType), Some(WrongSize), Some(TooLarge)}
      requires t.name in names
      requires var data := tensors[names[t.name]].data;
               && |data| == |t.data| && k < |data| && data[k] != t.data[k]
               && forall i | 0 <= i < |data| && i != k :: data[i] == t.data[i]
      ensures Refusal(t, memory) == Some(Conflict)
    {
      NamedRecord(Contents(), issued, t.name);
      HashDetectsOneByte(tensors[names[t.name]].data, t.data, k);
      hide Hash, ExpectedBytes, Consistent;
    }

    /** Any run of loads: each id is given out once, and everything stored on the way stays. */
    method StoreRun(run: seq<(Tensor, bool, U64)>) returns (results: seq<Outcome>)
      requires Valid() && forall k | 0 <= k < |run| :: ValidTensor(run[k].0)
      modifies this
      ensures Valid() && |results| == |run| && Extends(old(names), old(tensors), names, tensors)
      ensures old(issued) <= issued
      ensures forall k | 0 <= k < |run| && results[k].Kept? ::
                && run[k].0.name in names && names[run[k].0.name] == results[k].tensor.id
                && results[k].tensor.id in tensors && tensors[results[k].tensor.id] == results[k].tensor
                && results[k].tensor.name == run[k].0.name
      ensures forall j, k | 0 <= j < k < |run| && results[j].Kept? && results[k].Kept? ::
                results[j].tensor.id == results[k].tensor.id <==> run[j].0.name == run[k].0.name
    {
      hide ValidTensor, RefusalIn, RecordOf, Accepted, SameContent, Consistent;
      results := [];
      for i := 0 to |run|
        invariant Valid() && |results| == i && Extends(old(names), old(tensors), names, tensors)
            && old(issued) <= issued
        invariant forall k | 0 <= k < i && results[k].Kept? ::
                    && run[k].0.name in names && names[run[k].0.name] == results[k].tensor.id
                    && results[k].tensor.id in tensors && tensors[results[k].tensor.id] == results[k].tensor
                    && results[k].tensor.name == run[k].0.name
      {
        var r := Store(run[i].0, run[i].1, run[i].2);
        results := results + [r];
      }
    }
  }
}
