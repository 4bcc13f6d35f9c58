/** Payloads: a count of eight bytes and then words of four bytes, least significant byte first. */
module MessagePayloads {

  type Byte = x: int | 0 <= x < 256

  const WORD_LIMIT: int := 0x1_0000_0000
  const COUNT_LIMIT: int := 0x1_0000_0000_0000_0000

  function LittleEndian(x: nat, k: nat): (b: seq<Byte>)
    ensures |b| == k
  {
    if k == 0 then [] else [x % 256] + LittleEndian(x / 256, k - 1)
  }

  function FromLittleEndian(b: seq<Byte>): nat {
    if b == [] then 0 else b[0] + 256 * FromLittleEndian(b[1..])
  }

  function Pow256(k: nat): nat {
    if k == 0 then 1 else 256 * Pow256(k - 1)
  }

  lemma {:induction false} EndianRoundTrip(x: nat, k: nat)
    requires x < Pow256(k)
    ensures FromLittleEndian(LittleEndian(x, k)) == x
  {
    if k == 0 {
    } else {
      EndianRoundTrip(x / 256, k - 1);
      assert LittleEndian(x, k)[1..] == LittleEndian(x / 256, k - 1);
    }
  }

  lemma {:induction false} EndianBack(b: seq<Byte>)
    ensures FromLittleEndian(b) < Pow256(|b|) && LittleEndian(FromLittleEndian(b), |b|) == b
  {
    if b == [] {
    } else {
      EndianBack(b[1..]);
      LowByte(b[0], FromLittleEndian(b[1..]));
    }
  }

  /** Shifted to the right by 8 * i bits. */
  ghost function Shifted(x: nat, i: nat): nat {
    if i == 0 then x else Shifted(x, i - 1) / 256
  }

  lemma {:induction false} ShiftedTwice(x: nat, i: nat)
    ensures Shifted(x / 256, i) == Shifted(x, i + 1)
  {
    if i == 0 {
    } else {
      ShiftedTwice(x, i - 1);
    }
  }

  /** The byte at place i holds the lowest bits of the number shifted by as many bytes. */
  lemma {:induction false} LittleEndianAt(x: nat, k: nat, i: nat)
    requires i < k
    ensures LittleEndian(x, k)[i] == Shifted(x, i) % 256
  {
    if i == 0 {
    } else {
      LittleEndianAt(x / 256, k - 1, i - 1);
      ShiftedTwice(x, i - 1);
    }
  }

  lemma LowByte(d: Byte, y: nat)
    ensures (d + 256 * y) % 256 == d && (d + 256 * y) / 256 == y
  {
  }

  lemma Limits()
    ensures Pow256(4) == WORD_LIMIT && Pow256(8) == COUNT_LIMIT
  {
    assert Pow256(2) == 0x1_0000;
    assert Pow256(3) == 0x100_0000;
    assert Pow256(4) == WORD_LIMIT;
    assert Pow256(6) == 0x1_0000_0000_0000;
  }

  /** The words one after the other. */
  function Words(ws: seq<nat>): (b: seq<Byte>)
    ensures |b| == 4 * |ws|
  {
    if ws == [] then [] else Words(ws[..|ws| - 1]) + LittleEndian(ws[|ws| - 1], 4)
  }

  lemma {:induction false} WordAt(ws: seq<nat>, i: nat)
    requires i < |ws|
    ensures Words(ws)[4 * i..4 * i + 4] == LittleEndian(ws[i], 4)
  {
    var ws' := ws[..|ws| - 1];
    if i < |ws'| {
      WordAt(ws', i);
      assert Words(ws)[4 * i..4 * i + 4] == Words(ws')[4 * i..4 * i + 4];
    }
  }

  /** The payload of a list of `count` entries that consist of these words. */
  function Payload(count: nat, ws: seq<nat>): seq<Byte> {
    LittleEndian(count, 8) + Words(ws)
  }

  /** What the payload says: the count, and the words that follow. */
  ghost predicate Reads(buf: seq<Byte>, count: nat, ws: seq<nat>) {
    && |buf| >= 8 + 4 * |ws| && count == FromLittleEndian(buf[..8])
    && forall i :: 0 <= i < |ws| ==> ws[i] == FromLittleEndian(buf[8 + 4 * i..12 + 4 * i])
  }

  /** A payload reads as what it was made from. */
  lemma {:induction false} PayloadReads(count: nat, ws: seq<nat>)
    requires count < COUNT_LIMIT && forall i :: 0 <= i < |ws| ==> ws[i] < WORD_LIMIT
    ensures Reads(Payload(count, ws), count, ws)
  {
    Limits();
    var buf := Payload(count, ws);
    assert buf[..8] == LittleEndian(count, 8);
    EndianRoundTrip(count, 8);
    forall i | 0 <= i < |ws| ensures ws[i] == FromLittleEndian(buf[8 + 4 * i..12 + 4 * i]) {
      WordAt(ws, i);
      assert buf[8 + 4 * i..12 + 4 * i] == Words(ws)[4 * i..4 * i + 4];
      EndianRoundTrip(ws[i], 4);
    }
  }

  /** A payload that reads as something is what that would be written as, but for what may follow it. */
  lemma {:induction false} ReadsPayload(buf: seq<Byte>, count: nat, ws: seq<nat>)
    requires Reads(buf, count, ws)
    ensures buf[..8 + 4 * |ws|] == Payload(count, ws) && count < COUNT_LIMIT && forall i :: 0 <= i < |ws| ==> ws[i] < WORD_LIMIT
  {
    Limits();
    EndianBack(buf[..8]);
    assert forall i :: 0 <= i < |ws| ==> ws[i] == FromLittleEndian(buf[8 + 4 * i..12 + 4 * i]);
    forall i | 0 <= i < |ws| ensures ws[i] < WORD_LIMIT {
      EndianBack(buf[8 + 4 * i..12 + 4 * i]);
    }
    WordsBack(buf[8..8 + 4 * |ws|], ws) by {
      forall i | 0 <= i < |ws| ensures buf[8..8 + 4 * |ws|][4 * i..4 * i + 4] == LittleEndian(ws[i], 4) {
        EndianBack(buf[8 + 4 * i..12 + 4 * i]);
        SliceOf(buf, 8, 8 + 4 * |ws|, 4 * i, 4 * i + 4);
      }
    }
    assert buf[..8 + 4 * |ws|] == buf[..8] + buf[8..8 + 4 * |ws|];
  }

  lemma SliceOf(b: seq<Byte>, p: nat, q: nat, i: nat, j: nat)
    requires p <= q <= |b| && i <= j <= q - p
    ensures b[p..q][i..j] == b[p + i..p + j]
  {
    var l, r := b[p..q][i..j], b[p + i..p + j];
    assert |l| == |r|;
    forall k | 0 <= k < |l| ensures l[k] == r[k] {
      assert l[k] == b[p..q][i + k];
      assert b[p..q][i + k] == b[p + (i + k)];
      assert r[k] == b[p + i + k];
    }
  }

  /** The word at its place in the payload. */
  lemma ReadsAt(buf: seq<Byte>, count: nat, ws: seq<nat>, i: nat, p: nat, q: nat)
    requires Reads(buf, count, ws) && i < |ws| && p == 8 + 4 * i && q == p + 4
    ensures q <= |buf| && ws[i] == FromLittleEndian(buf[p..q])
  {
    assert ws[i] == FromLittleEndian(buf[8 + 4 * i..12 + 4 * i]);
    assert buf[8 + 4 * i..12 + 4 * i] == buf[p..q];
  }

  lemma {:induction false} WordsBack(b: seq<Byte>, ws: seq<nat>)
    requires |b| == 4 * |ws| && forall i :: 0 <= i < |ws| ==> b[4 * i..4 * i + 4] == LittleEndian(ws[i], 4)
    ensures b == Words(ws)
  {
    if ws == [] {
    } else {
      var n := |ws| - 1;
      forall i | 0 <= i < n ensures b[..4 * n][4 * i..4 * i + 4] == LittleEndian(ws[..n][i], 4) {
        assert b[..4 * n][4 * i..4 * i + 4] == b[4 * i..4 * i + 4];
      }
      WordsBack(b[..4 * n], ws[..n]);
      assert b == b[..4 * n] + b[4 * n..4 * n + 4];
    }
  }

  // ----------------------------------------------------------------- writing and reading

  method WriteLittleEndian(buf: array<Byte>, p: nat, x: nat, k: nat)
    requires p + k <= buf.Length
    modifies buf
    ensures buf[..] == old(buf[..p]) + LittleEndian(x, k) + old(buf[p + k..])
    ensures buf[..p + k] == old(buf[..p]) + LittleEndian(x, k)
    decreases k
  {
    if k > 0 {
      buf[p] := x % 256;
      WriteLittleEndian(buf, p + 1, x / 256, k - 1);
    }
  }

  lemma NoWords(ws: seq<nat>)
    ensures Words(ws[..0]) == []
  {
  }

  lemma OneMore(ws: seq<nat>, i: nat)
    requires i < |ws|
    ensures Words(ws[..i + 1]) == Words(ws[..i]) + LittleEndian(ws[i], 4)
  {
    assert ws[..i + 1][..i] == ws[..i];
  }

  /** The payload of a RequestM or a Report. */
  method ConstructIds(lostDataIds: seq<nat>) returns (buf: array<Byte>)
    ensures fresh(buf) && buf[..] == Payload(|lostDataIds|, lostDataIds)
  {
    hide LittleEndian, Words;
    var n := |lostDataIds|;
    NoWords(lostDataIds);
    buf := new Byte[4 * n + 8](_ => 0);
    WriteLittleEndian(buf, 0, n, 8);
    var i := 0;
    while i < n
      invariant 0 <= i <= n && fresh(buf) && buf.Length == 4 * n + 8
      invariant buf[..8 + 4 * i] == LittleEndian(n, 8) + Words(lostDataIds[..i])
    {
      WriteLittleEndian(buf, 8 + 4 * i, lostDataIds[i], 4);
      OneMore(lostDataIds, i);
      i := i + 1;
    }
    assert lostDataIds[..n] == lostDataIds && buf[..8 + 4 * n] == buf[..];
  }

  /** Reads a list of ids; the payload must hold as many as it says. */
  method ExtractIds(buf: array<Byte>) returns (dataIds: seq<nat>)
    requires buf.Length >= 8 && buf.Length >= 8 + 4 * FromLittleEndian(buf[..8])
    ensures |dataIds| == FromLittleEndian(buf[..8]) && Reads(buf[..], |dataIds|, dataIds)
  {
    var n := FromLittleEndian(buf[..8]);
    dataIds := [];
    var i := 0;
    while i < n
      invariant 0 <= i == |dataIds| <= n
      invariant forall j :: 0 <= j < i ==> dataIds[j] == FromLittleEndian(buf[8 + 4 * j..12 + 4 * j])
    {
      dataIds := dataIds + [FromLittleEndian(buf[8 + 4 * i..12 + 4 * i])];
      i := i + 1;
    }
    assert buf[..][..8] == buf[..8];
    assert forall j :: 0 <= j < n ==> buf[..][8 + 4 * j..12 + 4 * j] == buf[8 + 4 * j..12 + 4 * j];
  }

  /** What the constructing methods write, the extracting ones read back, and nothing else. */
  lemma IdsRoundTrip(ids: seq<nat>, buf: seq<Byte>, read: seq<nat>)
    requires |ids| < COUNT_LIMIT && forall i :: 0 <= i < |ids| ==> ids[i] < WORD_LIMIT
    requires buf == Payload(|ids|, ids) && |read| == FromLittleEndian(buf[..8]) && Reads(buf, |read|, read)
    ensures read == ids
  {
    PayloadReads(|ids|, ids);
  }

  // -------------------------------------------------------------------------- link states

  /** A neighbour and the status of the link to it, each a signed word. */
  datatype LinkState = LinkState(neighboredNodeId: int, status: int)

  function Unsigned(x: int): nat { x % WORD_LIMIT }

  function Signed(x: int): int { if x >= WORD_LIMIT / 2 then x - WORD_LIMIT else x }

  function Flat(ls: seq<LinkState>): (ws: seq<nat>)
    ensures |ws| == 2 * |ls|
  {
    if ls == [] then [] else Flat(ls[..|ls| - 1]) + [Unsigned(ls[|ls| - 1].neighboredNodeId), Unsigned(ls[|ls| - 1].status)]
  }

  lemma {:induction false} FlatAt(ls: seq<LinkState>, i: nat)
    requires i < |ls|
    ensures Flat(ls)[2 * i] == Unsigned(ls[i].neighboredNodeId) && Flat(ls)[2 * i + 1] == Unsigned(ls[i].status)
  {
    if i == |ls| - 1 {
    } else {
      FlatAt(ls[..|ls| - 1], i);
    }
  }

  lemma FlatFits(ls: seq<LinkState>)
    ensures forall i :: 0 <= i < |Flat(ls)| ==> Flat(ls)[i] < WORD_LIMIT
  {
  }

  method ConstructLinkStates(lsList: seq<LinkState>) returns (buf: array<Byte>)
    ensures fresh(buf) && buf[..] == Payload(|lsList|, Flat(lsList))
  {
    hide LittleEndian, Words, Flat;
    var n := |lsList|;
    NoStates(lsList);
    buf := new Byte[8 * n + 8](_ => 0);
    WriteLittleEndian(buf, 0, n, 8);
    var i := 0;
    while i < n
      invariant 0 <= i <= n && fresh(buf) && buf.Length == 8 * n + 8
      invariant buf[..8 + 8 * i] == LittleEndian(n, 8) + Words(Flat(lsList[..i]))
    {
      hide *;
      WriteLinkState(buf, 8 + 8 * i, lsList[i]);
      TwoMore(lsList, i, LittleEndian(n, 8));
      i := i + 1;
    }
    assert lsList[..n] == lsList && buf[..8 + 8 * n] == buf[..];
  }

  method WriteLinkState(buf: array<Byte>, p: nat, ls: LinkState)
    requires p + 8 <= buf.Length
    modifies buf
    ensures buf[..p + 8] == old(buf[..p]) + LittleEndian(Unsigned(ls.neighboredNodeId), 4) + LittleEndian(Unsigned(ls.status), 4)
  {
    hide *;
    WriteLittleEndian(buf, p, Unsigned(ls.neighboredNodeId), 4);
    ghost var more := buf[..p + 4];
    WriteLittleEndian(buf, p + 4, Unsigned(ls.status), 4);
    assert buf[..p + 8] == more + LittleEndian(Unsigned(ls.status), 4);
  }

  lemma NoStates(ls: seq<LinkState>)
    ensures Words(Flat(ls[..0])) == []
  {
  }

  lemma TwoWords(ws: seq<nat>, a: nat, b: nat)
    ensures Words(ws + [a, b]) == Words(ws) + LittleEndian(a, 4) + LittleEndian(b, 4)
  {
    assert (ws + [a, b])[..|ws| + 1] == ws + [a];
    assert (ws + [a])[..|ws|] == ws;
  }

  lemma TwoMore(ls: seq<LinkState>, i: nat, head: seq<Byte>)
    requires i < |ls|
    ensures head + Words(Flat(ls[..i + 1])) ==
            head + Words(Flat(ls[..i])) + LittleEndian(Unsigned(ls[i].neighboredNodeId), 4) + LittleEndian(Unsigned(ls[i].status), 4)
  {
    assert ls[..i + 1][..i] == ls[..i];
    TwoWords(Flat(ls[..i]), Unsigned(ls[i].neighboredNodeId), Unsigned(ls[i].status));
  }

  method ExtractLinkStates(buf: array<Byte>) returns (lsList: seq<LinkState>)
    requires buf.Length >= 8 && buf.Length >= 8 + 8 * FromLittleEndian(buf[..8])
    ensures |lsList| == FromLittleEndian(buf[..8])
    ensures forall i :: 0 <= i < |lsList| ==>
              lsList[i] == LinkState(Signed(FromLittleEndian(buf[8 + 8 * i..12 + 8 * i])), Signed(FromLittleEndian(buf[12 + 8 * i..16 + 8 * i])))
  {
    var n := FromLittleEndian(buf[..8]);
    lsList := [];
    var i := 0;
    while i < n
      invariant 0 <= i == |lsList| <= n
      invariant forall j :: 0 <= j < i ==>
                  lsList[j] == LinkState(Signed(FromLittleEndian(buf[8 + 8 * j..12 + 8 * j])), Signed(FromLittleEndian(buf[12 + 8 * j..16 + 8 * j])))
    {
      lsList := lsList + [LinkState(Signed(FromLittleEndian(buf[8 + 8 * i..12 + 8 * i])), Signed(FromLittleEndian(buf[12 + 8 * i..16 + 8 * i])))];
      i := i + 1;
    }
  }

  /** The link states of an advertisement come back unchanged. */
  lemma {:induction false} LinkStatesRoundTrip(ls: seq<LinkState>, buf: seq<Byte>, i: nat)
    requires |ls| < COUNT_LIMIT && buf == Payload(|ls|, Flat(ls)) && i < |ls|
    requires -0x8000_0000 <= ls[i].neighboredNodeId < 0x8000_0000 && -0x8000_0000 <= ls[i].status < 0x8000_0000
    ensures |buf| == 8 + 8 * |ls| && FromLittleEndian(buf[..8]) == |ls|
    ensures ls[i] == LinkState(Signed(FromLittleEndian(buf[8 + 8 * i..12 + 8 * i])), Signed(FromLittleEndian(buf[12 + 8 * i..16 + 8 * i])))
  {
    hide *;
    PayloadSize(ls);
    CountAt(ls, buf);
    StateWordAt(ls, buf, 2 * i, 8 + 8 * i, 12 + 8 * i);
    StateWordAt(ls, buf, 2 * i + 1, 12 + 8 * i, 16 + 8 * i);
    FlatAt(ls, i);
    SignedBack(ls[i].neighboredNodeId);
    SignedBack(ls[i].status);
  }

  lemma {:induction false} CountAt(ls: seq<LinkState>, buf: seq<Byte>)
    requires |ls| < COUNT_LIMIT && buf == Payload(|ls|, Flat(ls))
    ensures |buf| >= 8 && FromLittleEndian(buf[..8]) == |ls|
  {
    hide *;
    StatesRead(ls);
    ReadsCount(buf, |ls|, Flat(ls));
  }

  lemma {:induction false} StateWordAt(ls: seq<LinkState>, buf: seq<Byte>, j: nat, p: nat, q: nat)
    requires |ls| < COUNT_LIMIT && buf == Payload(|ls|, Flat(ls)) && j < |Flat(ls)| && p == 8 + 4 * j && q == p + 4
    ensures q <= |buf| && FromLittleEndian(buf[p..q]) == Flat(ls)[j]
  {
    hide *;
    StatesRead(ls);
    ReadsAt(buf, |ls|, Flat(ls), j, p, q);
  }

  lemma {:induction false} StatesRead(ls: seq<LinkState>)
    requires |ls| < COUNT_LIMIT
    ensures Reads(Payload(|ls|, Flat(ls)), |ls|, Flat(ls))
  {
    hide *;
    FlatFits(ls);
    PayloadReads(|ls|, Flat(ls));
  }

  lemma PayloadSize(ls: seq<LinkState>)
    ensures |Flat(ls)| == 2 * |ls| && |Payload(|ls|, Flat(ls))| == 8 + 8 * |ls|
  {
  }

  lemma SignedBack(x: int)
    requires -0x8000_0000 <= x < 0x8000_0000
    ensures Signed(Unsigned(x)) == x
  {
  }

  lemma ReadsCount(buf: seq<Byte>, count: nat, ws: seq<nat>)
    requires Reads(buf, count, ws)
    ensures |buf| >= 8 && FromLittleEndian(buf[..8]) == count
  {
  }
}
