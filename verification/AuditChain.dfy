/** The audit hash chain as a mathematical object: rows, digests, well-formed chains and what
    tampering does to them (core/app/audit/chain.py). */
module AuditChain {
  import opened Wrappers

  /** The columns under the digest: who, what and when, not the payload. */
  datatype Covered = Covered(tenant: string, actorId: Option<string>, actorKind: string, action: string,
                             objectType: string, objectId: string, created: int)

  /** The empty string, or a digest; distinct material gives distinct digests. */
  datatype Hash = Empty | Digest(seqNo: Option<int>, prev: Hash, covered: Covered)

  /** A row of `audit_log`; the three chain columns are nullable. */
  datatype Row = Row(id: int, covered: Covered, payload: string,
                     chainSeq: Option<int>, prevHash: Option<Hash>, hash: Option<Hash>)

  /** `row.prev_hash or ""`. */
  function PrevOrEmpty(r: Row): Hash {
    if r.prevHash.Some? then r.prevHash.value else Empty
  }

  function DigestOf(r: Row): Hash {
    Digest(r.chainSeq, PrevOrEmpty(r), r.covered)
  }

  /** Sealed and numbered. */
  predicate Numbered(r: Row) {
    r.hash.Some? && r.chainSeq.Some?
  }

  predicate Follows(a: Row, b: Row) {
    a.chainSeq.Some? && b.chainSeq == Some(a.chainSeq.value + 1) && b.prevHash == a.hash
  }

  /** The row at `i` passes the two tests of a verification; the first row is the anchor. */
  predicate RowOk(s: seq<Row>, i: nat)
    requires i < |s|
  {
    (i > 0 ==> Follows(s[i - 1], s[i])) && s[i].hash == Some(DigestOf(s[i]))
  }

  ghost predicate ChainOk(s: seq<Row>) {
    forall i :: 0 <= i < |s| ==> Numbered(s[i]) && RowOk(s, i)
  }

  ghost predicate FirstBreak(s: seq<Row>, i: nat) {
    i < |s| && !RowOk(s, i) && forall j :: 0 <= j < i ==> RowOk(s, j)
  }

  // ---------------------------------------------------------------- sealing

  function HeadSeq(s: seq<Row>): int {
    if s == [] || s[|s| - 1].chainSeq.None? then 0 else s[|s| - 1].chainSeq.value
  }

  function HeadHash(s: seq<Row>): Hash {
    if s == [] || s[|s| - 1].hash.None? then Empty else s[|s| - 1].hash.value
  }

  /** The row with its chain columns set. */
  function Seal(r: Row, seqNo: int, prev: Hash): Row {
    r.(chainSeq := Some(seqNo), prevHash := Some(prev), hash := Some(Digest(Some(seqNo), prev, r.covered)))
  }

  /** Sealing rows one after the other, starting behind a head. */
  function Extend(seqNo: int, prev: Hash, rows: seq<Row>): (r: seq<Row>)
    ensures |r| == |rows|
    ensures forall i :: 0 <= i < |r| ==> Numbered(r[i]) && r[i].chainSeq == Some(seqNo + 1 + i)
    ensures forall i :: 0 <= i < |r| ==> r[i].id == rows[i].id
    ensures forall i :: 0 <= i < |r| ==> r[i].covered == rows[i].covered && r[i].payload == rows[i].payload
    decreases |rows|
  {
    if rows == [] then []
    else
      var first := Seal(rows[0], seqNo + 1, prev);
      [first] + Extend(seqNo + 1, first.hash.value, rows[1..])
  }

  function ExtendChain(chain: seq<Row>, rows: seq<Row>): seq<Row> {
    chain + Extend(HeadSeq(chain), HeadHash(chain), rows)
  }

  lemma ExtendOne(chain: seq<Row>, rows: seq<Row>)
    requires rows != []
    ensures ExtendChain(chain, rows) ==
            ExtendChain(chain + [Seal(rows[0], HeadSeq(chain) + 1, HeadHash(chain))], rows[1..])
  {
    var first := Seal(rows[0], HeadSeq(chain) + 1, HeadHash(chain));
    var chain' := chain + [first];
    assert chain'[|chain'| - 1] == first;
    var rest := Extend(HeadSeq(chain'), HeadHash(chain'), rows[1..]);
    assert chain + ([first] + rest) == chain' + rest;
  }

  /** Sealing on its columns: the rows are numbered on from the last one of the chain, or from 1; each
      is linked to the hash of the one before, or to the empty string, and carries the digest of number,
      link and covered columns. */
  lemma SealedHolds(chain: seq<Row>, rows: seq<Row>, i: nat)
    requires ChainOk(chain) && i < |rows|
    ensures
      var all := ExtendChain(chain, rows);
      var n := |chain| + i;
      && |all| == |chain| + |rows| && all[..|chain|] == chain
      && all[n].id == rows[i].id && all[n].covered == rows[i].covered && all[n].payload == rows[i].payload
      && all[n].chainSeq == Some(if n == 0 then 1 else all[n - 1].chainSeq.value + 1)
      && all[n].prevHash == Some(if n == 0 then Empty else all[n - 1].hash.value)
      && all[n].hash == Some(Digest(all[n].chainSeq, all[n].prevHash.value, rows[i].covered))
  {
    var all, n := ExtendChain(chain, rows), |chain| + i;
    ExtendKeepsChain(chain, rows);
    assert RowOk(all, n);
    if n == 0 {
      assert all[0] == Seal(rows[0], 1, Empty);
    } else {
      assert RowOk(all, n - 1) && Numbered(all[n - 1]);
    }
  }

  /** A row of a well-formed chain on its columns. */
  ghost predicate RowHolds(s: seq<Row>, i: nat)
    requires i < |s|
  {
    && s[i].chainSeq.Some? && s[i].hash == Some(Digest(s[i].chainSeq, LinkOf(s, i), s[i].covered))
    && (i > 0 ==> s[i - 1].chainSeq.Some? && s[i].chainSeq == Some(s[i - 1].chainSeq.value + 1))
    && (i > 0 ==> s[i].prevHash == s[i - 1].hash)
  }

  /** A chain is well-formed if and only if all its rows are. */
  lemma ChainHolds(s: seq<Row>)
    ensures ChainOk(s) <==> forall i :: 0 <= i < |s| ==> RowHolds(s, i)
  {
    if ChainOk(s) {
      forall i | 0 <= i < |s|
        ensures RowHolds(s, i)
      {
        assert RowOk(s, i) && (i > 0 ==> Numbered(s[i - 1]));
      }
    }
    if forall i :: 0 <= i < |s| ==> RowHolds(s, i) {
      forall i | 0 <= i < |s|
        ensures Numbered(s[i]) && RowOk(s, i)
      {
        assert RowHolds(s, i);
      }
    }
  }

  /** `row.prev_hash or ""`, once more. */
  function LinkOf(s: seq<Row>, i: nat): Hash
    requires i < |s|
  {
    match s[i].prevHash
    case None => Empty
    case Some(h) => h
  }

  /** Batches do not matter: sealing in two steps is sealing once. */
  lemma {:induction false} ExtendTwice(chain: seq<Row>, a: seq<Row>, b: seq<Row>)
    ensures ExtendChain(ExtendChain(chain, a), b) == ExtendChain(chain, a + b)
    decreases |a|
  {
    if a == [] {
      assert a + b == b && ExtendChain(chain, a) == chain;
    } else {
      var next := chain + [Seal(a[0], HeadSeq(chain) + 1, HeadHash(chain))];
      ExtendOne(chain, a);
      ExtendOne(chain, a + b);
      assert (a + b)[1..] == a[1..] + b;
      ExtendTwice(next, a[1..], b);
    }
  }

  /** Sealing any rows behind a chain gives a chain. */
  lemma {:induction false} ExtendKeepsChain(chain: seq<Row>, rows: seq<Row>)
    requires ChainOk(chain)
    ensures ChainOk(ExtendChain(chain, rows))
    decreases |rows|
  {
    if rows == [] {
      assert ExtendChain(chain, rows) == chain;
    } else {
      var first := Seal(rows[0], HeadSeq(chain) + 1, HeadHash(chain));
      var next := chain + [first];
      forall i | 0 <= i < |next|
        ensures Numbered(next[i]) && RowOk(next, i)
      {
        if i < |chain| {
          assert RowOk(chain, i) && next[i] == chain[i];
        } else if chain != [] {
          assert Numbered(chain[|chain| - 1]);
        }
      }
      ExtendOne(chain, rows);
      ExtendKeepsChain(next, rows[1..]);
    }
  }

  lemma {:induction false} ChainSeqs(s: seq<Row>, i: nat)
    requires ChainOk(s) && i < |s|
    ensures s[i].chainSeq == Some(s[0].chainSeq.value + i)
  {
    if i > 0 {
      ChainSeqs(s, i - 1);
      assert RowOk(s, i);
    }
  }

  lemma SuffixIsChain(s: seq<Row>, n: nat)
    requires ChainOk(s) && n <= |s|
    ensures ChainOk(s[n..]) && ChainOk(s[..n])
  {
    var t := s[n..];
    forall i | 0 <= i < |t|
      ensures Numbered(t[i]) && RowOk(t, i)
    {
      assert RowOk(s, n + i) && t[i] == s[n + i];
    }
    forall i | 0 <= i < n
      ensures Numbered(s[..n][i]) && RowOk(s[..n], i)
    {
      assert RowOk(s, i);
    }
  }

  // ---------------------------------------------------------------- tampering

  /** What a row attests: its place and the covered columns. */
  datatype Fact = Fact(chainSeq: Option<int>, covered: Covered)

  function Facts(s: seq<Row>): (r: seq<Fact>)
    ensures |r| == |s|
    ensures forall i :: 0 <= i < |s| ==> r[i] == Fact(s[i].chainSeq, s[i].covered)
  {
    seq(|s|, i requires 0 <= i < |s| => Fact(s[i].chainSeq, s[i].covered))
  }

  /** Walking back from equal heads, two chains agree row by row. */
  lemma {:induction false} SameHeadStep(a: seq<Row>, b: seq<Row>, k: nat)
    requires ChainOk(a) && ChainOk(b)
    requires 0 < k <= |a| && k <= |b|
    requires a[|a| - 1].hash == b[|b| - 1].hash
    ensures a[|a| - k].hash == b[|b| - k].hash
    ensures a[|a| - k].chainSeq == b[|b| - k].chainSeq && a[|a| - k].covered == b[|b| - k].covered
  {
    if k > 1 {
      SameHeadStep(a, b, k - 1);
      SameHashSameRow(a, |a| - k + 1, b, |b| - k + 1);
    }
    SameHashSameRow(a, |a| - k, b, |b| - k);
  }

  /** Injectivity of the digest, one row at a time. */
  lemma SameHashSameRow(a: seq<Row>, i: nat, b: seq<Row>, j: nat)
    requires i < |a| && j < |b| && RowOk(a, i) && RowOk(b, j)
    requires a[i].hash == b[j].hash
    ensures a[i].chainSeq == b[j].chainSeq && a[i].covered == b[j].covered
    ensures i > 0 && j > 0 && a[i - 1].hash.Some? && b[j - 1].hash.Some? ==> a[i - 1].hash == b[j - 1].hash
  {
  }

  /** Two verifying histories with the same head hash attest the same facts over their common
      length: the shorter one is a suffix of the longer one. */
  lemma SameHeadSameHistory(a: seq<Row>, b: seq<Row>)
    requires ChainOk(a) && ChainOk(b) && 0 < |a| <= |b|
    requires a[|a| - 1].hash == b[|b| - 1].hash
    ensures Facts(a) == Facts(b)[|b| - |a|..]
  {
    var fa, fb := Facts(a), Facts(b)[|b| - |a|..];
    forall i | 0 <= i < |a|
      ensures fa[i] == fb[i]
    {
      SameHeadStep(a, b, |a| - i);
    }
  }

  /** When neither was ever truncated they are the same history. */
  lemma CompleteHistoriesAreEqual(a: seq<Row>, b: seq<Row>)
    requires ChainOk(a) && ChainOk(b) && 0 < |a| && 0 < |b|
    requires a[|a| - 1].hash == b[|b| - 1].hash
    requires PrevOrEmpty(a[0]) == Empty && PrevOrEmpty(b[0]) == Empty
    ensures Facts(a) == Facts(b)
  {
    NotLonger(a, b);
    NotLonger(b, a);
    SameHeadSameHistory(a, b);
    assert Facts(b)[0..] == Facts(b);
  }

  lemma NotLonger(a: seq<Row>, b: seq<Row>)
    requires ChainOk(a) && ChainOk(b) && 0 < |a| && 0 < |b|
    requires a[|a| - 1].hash == b[|b| - 1].hash
    requires PrevOrEmpty(a[0]) == Empty
    ensures |b| <= |a|
  {
    if |b| > |a| {
      var j := |b| - |a|;
      assert RowOk(a, 0) && RowOk(b, j) && RowOk(b, j - 1);
      SameHeadStep(a, b, |a|);
    }
  }

  /** A row that carries the stored hash of a genuine row but differs from it in its number, its
      link or a covered column fails there; with nothing wrong before, that is the first break.
      With `j == i` this is an edit, otherwise a row moved to another place. */
  lemma ForgedRowIsFirstBreak(s: seq<Row>, t: seq<Row>, i: nat, j: nat)
    requires ChainOk(s) && j < |s| && i < |t| && i <= |s|
    requires forall k :: 0 <= k < i ==> t[k] == s[k]
    requires t[i].hash == s[j].hash
    requires t[i].chainSeq != s[j].chainSeq || PrevOrEmpty(t[i]) != PrevOrEmpty(s[j]) || t[i].covered != s[j].covered
    ensures FirstBreak(t, i)
  {
    assert RowOk(s, j);
    forall k | 0 <= k < i
      ensures RowOk(t, k)
    {
      assert RowOk(s, k);
    }
  }

  /** Cutting rows out is noticed exactly when rows remain on both sides, and then at the first
      row after the gap. A lost tail needs the head hash kept elsewhere. */
  lemma DeletionIff(s: seq<Row>, i: nat, j: nat)
    requires ChainOk(s) && i < j <= |s|
    ensures ChainOk(s[..i] + s[j..]) <==> i == 0 || j == |s|
    ensures 0 < i && j < |s| ==> FirstBreak(s[..i] + s[j..], i) && (s[..i] + s[j..])[i] == s[j]
  {
    var t := s[..i] + s[j..];
    SuffixIsChain(s, i);
    SuffixIsChain(s, j);
    if i == 0 {
      assert t == s[j..];
    } else if j == |s| {
      assert t == s[..i];
    } else {
      ChainSeqs(s, i - 1);
      ChainSeqs(s, j);
      assert t[i - 1] == s[i - 1] && t[i] == s[j];
      assert !RowOk(t, i);
      forall k | 0 <= k < i
        ensures RowOk(t, k)
      {
        assert RowOk(s, k);
      }
    }
  }

  /** Every row carries the stored hash of a row of `s`. */
  ghost predicate KeepsHashes(s: seq<Row>, t: seq<Row>) {
    forall k :: 0 <= k < |t| ==> CarriesHashOf(s, t[k])
  }

  ghost predicate CarriesHashOf(s: seq<Row>, r: Row) {
    exists m :: 0 <= m < |s| && r.hash == s[m].hash
  }

  /** All that a digest covers, and the digest. */
  predicate SameRecord(a: Row, b: Row) {
    b.chainSeq == a.chainSeq && PrevOrEmpty(b) == PrevOrEmpty(a) && b.covered == a.covered && b.hash == a.hash
  }

  /** `t` records the rows of `s` from `j` on. */
  ghost predicate IsSlice(s: seq<Row>, t: seq<Row>, j: nat) {
    j + |t| <= |s| && forall k :: 0 <= k < |t| ==> SameRecord(s[j + k], t[k])
  }

  /** Whatever is edited, deleted or moved, and however often: rows that keep stored hashes of a
      chain verify if and only if they record a contiguous part of it. */
  lemma TamperingIff(s: seq<Row>, t: seq<Row>)
    requires ChainOk(s) && t != [] && KeepsHashes(s, t)
    ensures ChainOk(t) <==> exists j: nat :: IsSlice(s, t, j)
    ensures forall j: nat :: IsSlice(s, t, j) ==> Facts(t) == Facts(s)[j..j + |t|]
  {
    if ChainOk(t) {
      var j := SliceFrom(s, t);
    }
    forall j: nat | IsSlice(s, t, j)
      ensures Facts(t) == Facts(s)[j..j + |t|]
    {
      SliceFacts(s, t, j);
    }
    if j: nat :| IsSlice(s, t, j) {
      SliceIsChain(s, t, j);
    }
  }

  lemma SliceFrom(s: seq<Row>, t: seq<Row>) returns (j: nat)
    requires ChainOk(s) && ChainOk(t) && t != [] && KeepsHashes(s, t)
    ensures IsSlice(s, t, j)
  {
    j := GenuineRow(s, t, 0);
    forall k | 0 <= k < |t|
      ensures j + k < |s| && SameRecord(s[j + k], t[k])
    {
      SameOffset(s, t, j, k);
    }
    SameOffset(s, t, j, |t| - 1);
  }

  lemma SameOffset(s: seq<Row>, t: seq<Row>, j: nat, k: nat)
    requires ChainOk(s) && ChainOk(t) && k < |t| && KeepsHashes(s, t)
    requires j < |s| && SameRecord(s[j], t[0])
    ensures j + k < |s| && SameRecord(s[j + k], t[k])
  {
    var m := GenuineRow(s, t, k);
    ChainSeqs(s, j);
    ChainSeqs(s, m);
    ChainSeqs(t, k);
    assert Numbered(s[j]) && m == j + k;
  }

  /** A verifying row with a stored hash records the row that hash was made for. */
  lemma GenuineRow(s: seq<Row>, t: seq<Row>, k: nat) returns (m: nat)
    requires ChainOk(s) && ChainOk(t) && k < |t| && KeepsHashes(s, t)
    ensures m < |s| && SameRecord(s[m], t[k])
    ensures Numbered(s[0]) && Numbered(s[m]) && Numbered(t[0]) && Numbered(t[k])
  {
    assert CarriesHashOf(s, t[k]);
    m :| 0 <= m < |s| && t[k].hash == s[m].hash;
    assert RowOk(s, m) && RowOk(t, k);
  }

  lemma SliceFacts(s: seq<Row>, t: seq<Row>, j: nat)
    requires IsSlice(s, t, j)
    ensures Facts(t) == Facts(s)[j..j + |t|]
  {
    var part := Facts(s)[j..j + |t|];
    forall k | 0 <= k < |t|
      ensures Facts(t)[k] == part[k]
    {
      assert SameRecord(s[j + k], t[k]);
    }
  }

  lemma SliceIsChain(s: seq<Row>, t: seq<Row>, j: nat)
    requires ChainOk(s) && IsSlice(s, t, j)
    ensures ChainOk(t)
  {
    forall k | 0 <= k < |t|
      ensures Numbered(t[k]) && RowOk(t, k)
    {
      assert SameRecord(s[j + k], t[k]) && RowOk(s, j + k);
      if k > 0 {
        assert SameRecord(s[j + k - 1], t[k - 1]) && RowOk(s, j + k - 1);
      }
    }
  }

  /** A genuine row out of its place is the first break behind a genuine start. */
  lemma DisplacedRowIsFirstBreak(s: seq<Row>, t: seq<Row>, i: nat, j: nat)
    requires ChainOk(s) && 0 < i < |t| && i <= |s| && j < |s| && j != i
    requires forall k :: 0 <= k < i ==> t[k] == s[k]
    requires t[i] == s[j]
    ensures FirstBreak(t, i)
  {
    ChainSeqs(s, i - 1);
    ChainSeqs(s, j);
    assert t[i - 1] == s[i - 1] && !RowOk(t, i);
    forall k | 0 <= k < i
      ensures RowOk(t, k)
    {
      assert RowOk(s, k);
    }
  }

  /** Nothing but the payload differs. */
  ghost predicate SameButPayload(a: Row, b: Row) {
    b == a.(payload := b.payload)
  }

  /** Erasing payloads leaves the chain as it was. */
  lemma PayloadIsNotCovered(s: seq<Row>, t: seq<Row>)
    requires ChainOk(s) && |t| == |s|
    requires forall i :: 0 <= i < |s| ==> SameButPayload(s[i], t[i])
    ensures ChainOk(t) && Facts(t) == Facts(s) && HeadHash(t) == HeadHash(s)
  {
    forall i | 0 <= i < |t|
      ensures Numbered(t[i]) && RowOk(t, i)
    {
      assert RowOk(s, i) && SameButPayload(s[i], t[i]);
      assert i > 0 ==> SameButPayload(s[i - 1], t[i - 1]);
    }
    var ft, fs := Facts(t), Facts(s);
    forall i | 0 <= i < |t|
      ensures ft[i] == fs[i]
    {
      assert SameButPayload(s[i], t[i]);
    }
    assert s != [] ==> SameButPayload(s[|s| - 1], t[|s| - 1]);
  }

  // ---------------------------------------------------------------- archives and restarts

  /** Sealing continues the archived history as one chain exactly when a sealed row was left
      behind, or nothing was ever archived: an emptied chain restarts at 1 with no link. */
  lemma SealContinuesHistoryIff(archived: seq<Row>, chain: seq<Row>, pending: seq<Row>)
    requires ChainOk(archived + chain) && pending != []
    ensures ChainOk(archived + ExtendChain(chain, pending)) <==> chain != [] || archived == []
  {
    if chain != [] {
      ContinuesBehindHead(archived, chain, pending);
    } else {
      assert archived + chain == archived;
      if archived == [] {
        assert archived + ExtendChain(chain, pending) == ExtendChain(chain, pending);
        ExtendKeepsChain(chain, pending);
      } else {
        assert ExtendChain(chain, pending) == Extend(0, Empty, pending);
        RestartBreaksTheLink(archived, Extend(0, Empty, pending));
      }
    }
  }

  lemma ContinuesBehindHead(archived: seq<Row>, chain: seq<Row>, pending: seq<Row>)
    requires ChainOk(archived + chain) && chain != []
    ensures ChainOk(archived + ExtendChain(chain, pending))
  {
    var all := archived + chain;
    assert all[|all| - 1] == chain[|chain| - 1];
    var ext := Extend(HeadSeq(chain), HeadHash(chain), pending);
    assert archived + (chain + ext) == all + ext;
    ExtendKeepsChain(all, pending);
  }

  lemma RestartBreaksTheLink(archived: seq<Row>, restarted: seq<Row>)
    requires ChainOk(archived) && archived != [] && restarted != []
    requires restarted[0].prevHash == Some(Empty)
    ensures !ChainOk(archived + restarted)
  {
    var n := |archived|;
    assert RowOk(archived, n - 1);
    assert !RowOk(archived + restarted, n);
  }
}
