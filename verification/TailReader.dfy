/** Reading the end of a stream of unknown length in bounded memory. */
module TailReader {

  type Byte = b: int | 0 <= b < 256

  const CHUNK := 65536

  datatype Ending = More | Eof | Broken

  /** What one Read returns: data, possibly together with the end of the stream or an error. */
  datatype Chunk = Chunk(data: seq<Byte>, ending: Ending)

  /** The data of the first `k` reads. */
  function Seen(chunks: seq<Chunk>, k: nat): seq<Byte>
    requires k <= |chunks|
  {
    if k == 0 then [] else Seen(chunks, k - 1) + chunks[k - 1].data
  }

  /** The last `n` bytes, or all of them. */
  function Last(s: seq<Byte>, n: nat): seq<Byte> {
    if |s| <= n then s else s[|s| - n..]
  }

  /** Dropping early bytes now or later makes no difference. */
  lemma LastOfLast(s: seq<Byte>, d: seq<Byte>, n: nat)
    ensures Last(Last(s, n) + d, n) == Last(s + d, n)
  {
    if |s| > n {
      var early, kept := s[..|s| - n], s[|s| - n..];
      assert s + d == early + (kept + d);
      DropFront(early, kept + d, |d|);
    }
  }

  lemma DropFront(a: seq<Byte>, b: seq<Byte>, k: nat)
    requires k <= |b|
    ensures (a + b)[|a| + k..] == b[k..]
  {
  }

  /** The tail after one more read, from the tail before it. */
  lemma NextTail(chunks: seq<Chunk>, i: nat, max: nat)
    requires i < |chunks|
    ensures Last(Last(Seen(chunks, i), max) + chunks[i].data, max) == Last(Seen(chunks, i + 1), max)
  {
    LastOfLast(Seen(chunks, i), chunks[i].data, max);
  }

  /** The first read that ends the stream. */
  ghost predicate EndsAt(chunks: seq<Chunk>, k: nat) {
    && k < |chunks| && chunks[k].ending != More
    && forall i | 0 <= i < k :: chunks[i].ending == More
  }

  /** Append `d` behind the `len` bytes held. */
  method Append(buf: array<Byte>, len: nat, d: seq<Byte>)
    requires len + |d| <= buf.Length
    modifies buf
    ensures buf[..len + |d|] == old(buf[..len]) + d
  {
    for i := 0 to |d|
      invariant buf[..len] == old(buf[..len])
      invariant forall j | 0 <= j < i :: buf[len + j] == d[j]
    {
      buf[len + i] := d[i];
    }
    assert forall j | 0 <= j < |d| :: buf[..len + |d|][len + j] == d[j];
  }

  /** Move the last `keep` of `len` bytes to the front, within the same buffer. */
  method ShiftDown(buf: array<Byte>, len: nat, keep: nat)
    requires keep <= len <= buf.Length
    modifies buf
    ensures buf[..keep] == old(buf[len - keep..len])
  {
    var off := len - keep;
    ghost var was := buf[..];
    for i := 0 to keep
      invariant buf[..i] == was[off..off + i]
      invariant buf[i..] == was[i..]
    {
      assert buf[off + i] == buf[i..][off] == was[off + i];
      buf[i] := buf[off + i];
      assert buf[..i + 1] == was[off..off + i] + [was[off + i]] == was[off..off + i + 1];
      assert buf[i + 1..] == was[i..][1..] == was[i + 1..];
    }
  }

  /** Take one read's data into a buffer that keeps the newest `max` bytes; `held` is the most it held. */
  method Take(buf: array<Byte>, len: nat, d: seq<Byte>, max: nat) returns (len': nat, ghost held: nat)
    requires len <= max && |d| <= CHUNK && buf.Length == max + CHUNK
    modifies buf
    ensures len' <= max && held <= buf.Length
    ensures buf[..len'] == Last(old(buf[..len]) + d, max)
  {
    len', held := len, len;
    if |d| > 0 {
      Append(buf, len, d);
      len' := len + |d|;
      held := len';
      if len' > max {
        ghost var all := buf[..len'];
        ShiftDown(buf, len', max);
        assert buf[..max] == all[len' - max..];
        len' := max;
      }
    }
  }

  /**
   The last `maxBytes` bytes of the stream, whatever way it is cut into
   reads, or nothing when it breaks. The buffer has room for `maxBytes` and
   one chunk, and `peak` is the most it ever holds.
   */
  method TailBytes(chunks: seq<Chunk>, maxBytes: int, ghost end: nat) returns (tail: seq<Byte>, ok: bool, ghost peak: nat)
    requires EndsAt(chunks, end)
    requires forall i | 0 <= i < |chunks| :: |chunks[i].data| <= CHUNK
    ensures maxBytes <= 0 ==> ok && tail == []
    ensures maxBytes > 0 ==> ok == chunks[end].ending.Eof?
    ensures maxBytes > 0 && ok ==> tail == Last(Seen(chunks, end + 1), maxBytes)
    ensures maxBytes > 0 ==> peak <= maxBytes + CHUNK
  {
    peak, tail := 0, [];
    if maxBytes <= 0 {
      return [], true, 0;
    }
    var buf := new Byte[maxBytes + CHUNK];
    var len: nat := 0;
    var i := 0;
    while true
      invariant i <= end && len <= maxBytes && peak <= maxBytes + CHUNK
      invariant buf[..len] == Last(Seen(chunks, i), maxBytes)
      decreases end - i
    {
      var r := chunks[i];
      NextTail(chunks, i, maxBytes);
      ghost var held: nat;
      ghost var before := buf[..len];
      len, held := Take(buf, len, r.data, maxBytes);
      assert buf[..len] == Last(before + r.data, maxBytes) == Last(Seen(chunks, i + 1), maxBytes);
      peak := if peak < held then held else peak;
      if r.ending == Eof {
        return buf[..len], true, peak;
      }
      if r.ending == Broken {
        return [], false, peak;
      }
      i := i + 1;
    }
  }
}
