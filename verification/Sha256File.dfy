/**
 Callers of the streaming hash: any cutting of a message into pieces, and the read loop of
 src/shell/image/sha256_file.c with `read` as an oracle.
 */
module Sha256File {
  import opened Fips180
  import opened Sha256

  function Concat(pieces: seq<seq<Byte>>): seq<Byte> {
    if pieces == [] then [] else Concat(pieces[..|pieces| - 1]) + pieces[|pieces| - 1]
  }

  /** init, one update for each piece, finalize, read: only the concatenation matters. */
  method HashPieces(pieces: seq<seq<Byte>>) returns (hash: seq<Byte>)
    ensures hash == DigestBytes(Digest(Concat(pieces)))
    ensures |Concat(pieces)| < TWO_61 ==> hash == DigestBytes(Fips180.Sha256(Concat(pieces)))
  {
    hide Digest, DigestBytes, Sha256Buff.Absorbed;
    var buff := new Sha256Buff();
    buff.Init();
    for i := 0 to |pieces|
      invariant fresh(buff) && fresh(buff.h) && fresh(buff.lastChunk)
      invariant buff.Absorbed(Concat(pieces[..i]))
    {
      assert pieces[..i + 1][..i] == pieces[..i];
      buff.Update(pieces[i], Concat(pieces[..i]));
    }
    assert pieces[..|pieces|] == pieces;
    buff.Finalize(Concat(pieces));
    var out := new Byte[32];
    buff.Read(out);
    hash := out[..];
    if |Concat(pieces)| < TWO_61 {
      DigestIsSha256(Concat(pieces));
    }
  }

  const FILE_BUFFER_SIZE: nat := 1024

  /** The byte count the `i`-th read gives at offset `at`: negative on error, at most the buffer
      and what the file holds from there. */
  function ReadCount(read: nat -> int, i: nat, at: nat, file: seq<Byte>): (n: int)
    requires at <= |file|
    ensures n <= FILE_BUFFER_SIZE && n <= |file| - at
  {
    if read(i) <= FILE_BUFFER_SIZE && read(i) <= |file| - at then read(i)
    else if |file| - at <= FILE_BUFFER_SIZE then |file| - at
    else FILE_BUFFER_SIZE
  }

  /** The read loop: `ok` is false when a read failed. The loop stops once `size` bytes are in, or
      at a read that gives nothing. */
  method HashReads(buff: Sha256Buff, size: nat, file: seq<Byte>, read: nat -> int) returns (ok: bool, total: nat)
    requires buff.Absorbed([])
    modifies buff, buff.h, buff.lastChunk
    ensures total <= |file| && buff.Absorbed(file[..total])
    ensures ok && total < size ==> exists i: nat :: ReadCount(read, i, total, file) == 0
    ensures !ok ==> exists i: nat :: ReadCount(read, i, total, file) < 0
  {
    hide Sha256Buff.Absorbed;
    total := 0;
    var calls := 0;
    assert file[..0] == [];
    while total < size
      invariant total <= |file| && buff.Absorbed(file[..total])
      decreases size - total
    {
      var n := ReadCount(read, calls, total, file);
      if n < 0 {
        return false, total;
      }
      if n == 0 {
        return true, total;
      }
      assert file[..total] + file[total..total + n] == file[..total + n];
      buff.Update(file[total..total + n], file[..total]);
      total := total + n;
      calls := calls + 1;
    }
    ok := true;
  }

  /** sha256_file. `file` is what the descriptor yields and `size` what fstat reported; they differ
      when the file changes meanwhile. A zero return hashes exactly the prefix that was read, and the
      whole file when reads stop only at its end. */
  method HashFile(openOk: bool, statOk: bool, size: nat, mallocOk: bool, file: seq<Byte>, read: nat -> int)
    returns (ret: int, hash: string, ghost got: nat)
    ensures ret == 0 || ret == -1 || ret == -2
    ensures ret == -2 <==> !openOk
    ensures ret != 0 ==> hash == ""
    ensures ret == 0 ==> got <= |file| && hash == HexDigits(DigestBytes(Digest(file[..got])))
    ensures ret == 0 ==> openOk && statOk && mallocOk && size > 0
    ensures openOk && statOk && mallocOk && size > 0
            && (forall i: nat, at | 0 <= at <= |file| :: ReadCount(read, i, at, file) >= 0)
            ==> ret == 0
    ensures ret == 0 && size == |file| && (forall i: nat, at | 0 <= at < |file| :: ReadCount(read, i, at, file) != 0)
            ==> got == |file|
  {
    hide Digest, DigestBytes, HexDigits;
    got, hash := 0, "";
    if !openOk {
      return -2, hash, got;
    }
    if !statOk || size == 0 || !mallocOk {
      return -1, hash, got;
    }
    var buff := new Sha256Buff();
    buff.Init();
    var ok, total := HashReads(buff, size, file, read);
    if !ok {
      return -1, hash, got;
    }
    got := total;
    buff.Finalize(file[..total]);
    hash := buff.ReadHex();
    ret := 0;
  }
}
