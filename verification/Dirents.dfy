/**
  Directory listing: `File::getdents` (filesystem/fs/src/file.rs) over the Dirent64 layout of
  filesystem/vfscore/src/lib.rs, read back by a client that walks the records by their length.
*/
module Dirents {
  import opened Wrappers
  import opened Bytes
  import Arith

  type Name = seq<Byte>

  /** `size_of::<Dirent64>()`, and where its name field starts. */
  const DIRENT_SIZE: nat := 24
  const NAME_AT: nat := 19
  const MAX_ENTRIES: nat := 50
  const U16_LIMIT: nat := 65536

  /* ---------- Records ---------- */

  function RecLen(name: Name): nat {
    DIRENT_SIZE + |name| + 1
  }

  /** The bytes of a record: ino, off, the 16-bit reclen, ftype, the name and its NUL. */
  function WrittenAt(name: Name, i: nat): Byte
    requires i <= NAME_AT + |name|
  {
    var n := RecLen(name);
    if i < 8 then 0
    else if i < 16 then Enc(n, 8)[i - 8]
    else if i == 16 then n % 256
    else if i == 17 then n / 256 % 256
    else if i == 18 then 0
    else if i < NAME_AT + |name| then name[i - NAME_AT]
    else 0
  }

  function Written(name: Name): (r: seq<Byte>)
    ensures |r| == NAME_AT + |name| + 1
  {
    seq<Byte>(NAME_AT + |name| + 1, i requires 0 <= i <= NAME_AT + |name| => WrittenAt(name, i))
  }

  function Patch(buf: seq<Byte>, at: nat, data: seq<Byte>): (r: seq<Byte>)
    requires at + |data| <= |buf|
    ensures |r| == |buf|
  {
    seq<Byte>(|buf|, i requires 0 <= i < |buf| => if at <= i < at + |data| then data[i - at] else buf[i])
  }

  datatype Reply = Reply(buf: seq<Byte>, count: nat, offset: nat)

  /** The loop from entry `i` on, with `at` bytes stored and `finished` the position reached. */
  function Emit(entries: seq<Name>, i: nat, buf: seq<Byte>, at: nat, quota: nat, finished: nat): Reply
    requires at <= |buf|
    decreases |entries| - i
  {
    if i >= |entries| || quota == 0 || |buf| - at < RecLen(entries[i]) then Reply(buf, at, finished)
    else Emit(entries, i + 1, Patch(buf, at, Written(entries[i])), at + RecLen(entries[i]), quota - 1, i + 1)
  }

  /**
    One call.  A directory that cannot be read counts as empty and leaves the position alone; a
    call that stores nothing puts it back to 0.
  */
  function Getdents(listing: Option<seq<Name>>, offset: nat, buf: seq<Byte>): Reply {
    match listing
    case None => Reply(buf, 0, offset)
    case Some(entries) => Emit(entries, offset, buf, 0, MAX_ENTRIES, 0)
  }

  /* ---------- Reading records ---------- */

  /** The little-endian reclen field. */
  function Field(bs: seq<Byte>): nat
    requires |bs| >= NAME_AT
  {
    (bs[16] as int) + 256 * (bs[17] as int)
  }

  /** What a client does with the bytes: step by reclen, take each name up to its NUL. */
  function Parse(bs: seq<Byte>): Option<seq<Name>>
    decreases |bs|
  {
    if bs == [] then Some([])
    else if |bs| < NAME_AT then None
    else
      var n := Field(bs);
      if n < NAME_AT || n > |bs| then None
      else
        match Parse(bs[n..])
        case None => None
        case Some(rest) => Some([CString(bs[NAME_AT..n])] + rest)
  }

  /** A name a client can get back: no NUL inside, and a record length that fits its field. */
  predicate Listable(name: Name) {
    0 !in name && RecLen(name) < U16_LIMIT
  }

  lemma RecordFields(bs: seq<Byte>, name: Name, more: seq<Byte>)
    requires bs == Written(name) + more
    ensures |bs| == NAME_AT + |name| + 1 + |more|
    ensures Field(bs) == RecLen(name) % U16_LIMIT && bs[NAME_AT..] == name + ([0] + more)
  {
    assert bs[16] == WrittenAt(name, 16) && bs[17] == WrittenAt(name, 17);
    LowBytes(RecLen(name));
  }

  lemma LowBytes(n: nat)
    ensures n % 256 + 256 * (n / 256 % 256) == n % U16_LIMIT
  {
    var high := n / 256;
    Arith.DivUnique(n, U16_LIMIT, high / 256, n % 256 + 256 * (high % 256));
  }

  lemma {:induction false} CStringShort(bs: seq<Byte>)
    ensures |CString(bs)| <= |bs| && 0 !in CString(bs)
  {
    if bs != [] && bs[0] != 0 {
      CStringShort(bs[1..]);
    }
  }

  lemma {:induction false} CStringEnds(name: Name, more: seq<Byte>)
    requires 0 !in name
    ensures CString(name + ([0] + more)) == name
  {
    if name == [] {
      assert name + ([0] + more) == [0] + more;
    } else {
      assert (name + ([0] + more))[1..] == name[1..] + ([0] + more);
      CStringEnds(name[1..], more);
    }
  }

  function Before(name: Name, rest: Option<seq<Name>>): Option<seq<Name>> {
    match rest case None => None case Some(names) => Some([name] + names)
  }

  lemma ParseHead(bs: seq<Byte>)
    requires |bs| >= NAME_AT
    ensures NAME_AT <= Field(bs) <= |bs| ==>
      Parse(bs) == Before(CString(bs[NAME_AT..Field(bs)]), Parse(bs[Field(bs)..]))
    ensures Parse(bs).Some? ==>
      && NAME_AT <= Field(bs) <= |bs| && Parse(bs).value != []
      && Parse(bs).value[0] == CString(bs[NAME_AT..Field(bs)])
  {
  }

  /** A listable record at the front parses, and the client goes on right behind it. */
  lemma {:induction false} RecordParses(bs: seq<Byte>, name: Name, filler: seq<Byte>, more: seq<Byte>)
    requires Listable(name) && |Written(name)| + |filler| == RecLen(name)
    requires bs == Written(name) + (filler + more)
    ensures Parse(bs) == Before(name, Parse(more))
  {
    RecordFields(bs, name, filler + more);
    HeadParses(bs, name, filler, more);
  }

  lemma {:induction false} HeadParses(bs: seq<Byte>, name: Name, filler: seq<Byte>, more: seq<Byte>)
    requires 0 !in name && |bs| == RecLen(name) + |more| && NAME_AT + |name| + 1 + |filler| == RecLen(name)
    requires Field(bs) == RecLen(name) && bs[NAME_AT..] == name + ([0] + (filler + more))
    ensures Parse(bs) == Before(name, Parse(more))
  {
    Middle(bs, name, filler, more, RecLen(name));
    CStringEnds(name, filler);
    ParseHead(bs);
  }

  lemma Middle(bs: seq<Byte>, name: Name, filler: seq<Byte>, more: seq<Byte>, n: nat)
    requires |bs| == n + |more| && n == NAME_AT + |name| + 1 + |filler|
    requires bs[NAME_AT..] == name + ([0] + (filler + more))
    ensures bs[n..] == more && bs[NAME_AT..n] == name + ([0] + filler)
  {
    var tail := bs[NAME_AT..];
    assert bs[n..] == tail[n - NAME_AT..] && bs[NAME_AT..n] == tail[..n - NAME_AT];
    assert tail == (name + ([0] + filler)) + more;
  }

  /** What else a client finds in a record: no inode number, its length as offset, no file type. */
  lemma RecordHeader(bs: seq<Byte>, name: Name, more: seq<Byte>)
    requires bs == Written(name) + more
    ensures |bs| >= NAME_AT && bs[..8] == Zeros(8) && bs[8..16] == Enc(|name| + 25, 8) && bs[18] == 0
  {
    hide Enc;
    assert RecLen(name) == |name| + 25;
    forall k | 0 <= k < 8 ensures bs[..8][k] == Zeros(8)[k] {
      assert bs[k] == WrittenAt(name, k);
    }
    var off := Enc(|name| + 25, 8);
    forall k | 0 <= k < 8 ensures bs[8..16][k] == off[k] {
      assert bs[8 + k] == WrittenAt(name, 8 + k);
    }
    assert bs[18] == WrittenAt(name, 18);
  }

  /** Which names survive the trip: exactly the listable ones. */
  lemma {:induction false} RecordParsesIff(name: Name, filler: seq<Byte>)
    requires |Written(name)| + |filler| == RecLen(name)
    ensures Parse(Written(name) + filler) == Some([name]) <==> Listable(name)
  {
    var bs := Written(name) + filler;
    if Listable(name) {
      assert filler + [] == filler && [name] + [] == [name];
      RecordParses(bs, name, filler, []);
    } else {
      RecordFields(bs, name, filler);
      ParseHead(bs);
      if Parse(bs).Some? {
        CStringShort(bs[NAME_AT..Field(bs)]);
      }
    }
  }

  /* ---------- What one call stores ---------- */

  function Total(names: seq<Name>): nat {
    if names == [] then 0 else RecLen(names[0]) + Total(names[1..])
  }

  /** The entry a call stops at: the end, the quota or the first record without room. */
  function Stop(entries: seq<Name>, i: nat, room: nat, quota: nat): (j: nat)
    requires i <= |entries|
    ensures i <= j <= |entries| && j <= i + quota
    ensures j == i <==> i == |entries| || quota == 0 || room < RecLen(entries[i])
    decreases |entries| - i
  {
    if i == |entries| || quota == 0 || room < RecLen(entries[i]) then i
    else Stop(entries, i + 1, room - RecLen(entries[i]), quota - 1)
  }

  predicate AllListable(names: seq<Name>) {
    forall x :: x in names ==> Listable(x)
  }

  lemma TotalStep(entries: seq<Name>, i: nat, j: nat)
    requires i < j <= |entries|
    ensures Total(entries[i..j]) == RecLen(entries[i]) + Total(entries[i + 1..j])
  {
    assert entries[i..j][1..] == entries[i + 1..j];
  }

  /** A call stops only where it must, and stores no more than fits. */
  lemma {:induction false} StopFits(entries: seq<Name>, i: nat, room: nat, quota: nat)
    requires i <= |entries|
    ensures var j := Stop(entries, i, room, quota); var n := Total(entries[i..j]);
      && n <= room
      && (j < |entries| && j < i + quota ==> room < n + RecLen(entries[j]))
    decreases |entries| - i
  {
    var j := Stop(entries, i, room, quota);
    if j > i {
      StopFits(entries, i + 1, room - RecLen(entries[i]), quota - 1);
      TotalStep(entries, i, j);
    }
  }

  /** Where the loop ends. */
  lemma {:induction false} EmitEnds(entries: seq<Name>, i: nat, buf: seq<Byte>, at: nat, quota: nat, finished: nat)
    requires at <= |buf| && i <= |entries|
    ensures var r := Emit(entries, i, buf, at, quota, finished); var j := Stop(entries, i, |buf| - at, quota);
      && at <= r.count == at + Total(entries[i..j]) <= |buf| == |r.buf|
      && r.offset == (if j == i then finished else j)
    decreases |entries| - i
  {
    var j := Stop(entries, i, |buf| - at, quota);
    StopFits(entries, i, |buf| - at, quota);
    if j > i {
      var next, n := Patch(buf, at, Written(entries[i])), RecLen(entries[i]);
      EmitEnds(entries, i + 1, next, at + n, quota - 1, i + 1);
      TotalStep(entries, i, j);
    }
  }

  /** The loop leaves what is already stored alone. */
  lemma {:induction false} EmitFrame(entries: seq<Name>, i: nat, buf: seq<Byte>, at: nat, quota: nat, finished: nat)
    requires at <= |buf|
    ensures var r := Emit(entries, i, buf, at, quota, finished); |r.buf| == |buf| && r.buf[..at] == buf[..at]
    decreases |entries| - i
  {
    if i < |entries| && quota > 0 && |buf| - at >= RecLen(entries[i]) {
      var next, n := Patch(buf, at, Written(entries[i])), RecLen(entries[i]);
      EmitFrame(entries, i + 1, next, at + n, quota - 1, i + 1);
      var out := Emit(entries, i + 1, next, at + n, quota - 1, i + 1).buf;
      assert out[..at] == out[..at + n][..at] == next[..at + n][..at] == buf[..at];
    }
  }

  lemma PatchBeyond(buf: seq<Byte>, at: nat, data: seq<Byte>, c: nat)
    requires at + |data| <= c <= |buf|
    ensures Patch(buf, at, data)[c..] == buf[c..]
  {
  }

  /** And it touches nothing behind what it reports as stored. */
  lemma {:induction false} EmitBeyond(entries: seq<Name>, i: nat, buf: seq<Byte>, at: nat, quota: nat, finished: nat)
    requires at <= |buf|
    ensures var r := Emit(entries, i, buf, at, quota, finished);
      at <= r.count <= |r.buf| == |buf| && r.buf[r.count..] == buf[r.count..]
    decreases |entries| - i
  {
    if i < |entries| && quota > 0 && |buf| - at >= RecLen(entries[i]) {
      hide Patch;
      var next, n := Patch(buf, at, Written(entries[i])), RecLen(entries[i]);
      EmitBeyond(entries, i + 1, next, at + n, quota - 1, i + 1);
      PatchBeyond(buf, at, Written(entries[i]), Emit(entries, i + 1, next, at + n, quota - 1, i + 1).count);
    }
  }

  /** A record at the head of `bs`, and where the next one starts. */
  ghost predicate StartsRecord(bs: seq<Byte>, name: Name) {
    RecLen(name) <= |bs| && bs[..|Written(name)|] == Written(name)
  }

  /** The records of `names`, one behind the other, and nothing else. */
  ghost predicate Records(bs: seq<Byte>, names: seq<Name>)
    decreases |names|
  {
    if names == [] then bs == []
    else StartsRecord(bs, names[0]) && Records(bs[RecLen(names[0])..], names[1..])
  }

  lemma {:induction false} HeadRecord(bs: seq<Byte>, name: Name)
    requires Listable(name) && StartsRecord(bs, name)
    ensures Parse(bs) == Before(name, Parse(bs[RecLen(name)..]))
  {
    var n, w := RecLen(name), |Written(name)|;
    assert bs == bs[..w] + (bs[w..n] + bs[n..]);
    RecordParses(bs, name, bs[w..n], bs[n..]);
  }

  /** Records one behind the other parse into their names. */
  lemma {:induction false} RecordsParse(bs: seq<Byte>, names: seq<Name>)
    requires Records(bs, names) && forall i :: 0 <= i < |names| ==> Listable(names[i])
    ensures Parse(bs) == Some(names)
    decreases |names|
  {
    if names != [] {
      HeadRecord(bs, names[0]);
      RecordsParse(bs[RecLen(names[0])..], names[1..]);
      assert [names[0]] + names[1..] == names;
    }
  }

  /** A record stored at `at` and left alone since then stands there. */
  lemma StoredStarts(out: seq<Byte>, buf: seq<Byte>, at: nat, name: Name, end: nat)
    requires at + RecLen(name) <= end <= |out| == |buf|
    requires out[..at + RecLen(name)] == Patch(buf, at, Written(name))[..at + RecLen(name)]
    ensures StartsRecord(out[at..end], name)
    ensures out[at..end][RecLen(name)..] == out[at + RecLen(name)..end]
  {
    var w, n := Written(name), RecLen(name);
    forall k | 0 <= k < |w| ensures out[at..end][k] == w[k] {
      assert out[..at + n][at + k] == Patch(buf, at, w)[..at + n][at + k];
    }
  }

  /** What a call stores are the records of the entries it passed. */
  lemma {:induction false} EmitStores(entries: seq<Name>, i: nat, buf: seq<Byte>, at: nat, quota: nat, finished: nat)
    requires at <= |buf| && i <= |entries|
    ensures var r := Emit(entries, i, buf, at, quota, finished); var j := Stop(entries, i, |buf| - at, quota);
      at <= r.count <= |r.buf| && Records(r.buf[at..r.count], entries[i..j])
    decreases |entries| - i
  {
    var j := Stop(entries, i, |buf| - at, quota);
    if j > i {
      var next, n := Patch(buf, at, Written(entries[i])), RecLen(entries[i]);
      var r := Emit(entries, i + 1, next, at + n, quota - 1, i + 1);
      EmitStores(entries, i + 1, next, at + n, quota - 1, i + 1);
      EmitFrame(entries, i + 1, next, at + n, quota - 1, i + 1);
      StoredStarts(r.buf, buf, at, entries[i], r.count);
      assert entries[i..j][0] == entries[i] && entries[i..j][1..] == entries[i + 1..j];
    }
  }

  /* ---------- Listing a directory ---------- */

  /** A client reads with one buffer after another until a call returns 0. */
  datatype Session = Listed(names: seq<Name>, offset: nat) | Garbled | OutOfBuffers

  function Continue(names: seq<Name>, rest: Session): Session {
    match rest
    case Listed(more, offset) => Listed(names + more, offset)
    case _ => rest
  }

  function ReadAll(entries: seq<Name>, offset: nat, bufs: seq<seq<Byte>>): Session
    decreases |bufs|
  {
    if bufs == [] then OutOfBuffers
    else
      var r := Getdents(Some(entries), offset, bufs[0]);
      if r.count == 0 then Listed([], r.offset)
      else if r.count > |r.buf| then Garbled
      else
        match Parse(r.buf[..r.count])
        case None => Garbled
        case Some(names) => Continue(names, ReadAll(entries, r.offset, bufs[1..]))
  }

  /** Every buffer the client needs is there, and has room for the next record at least. */
  predicate Roomy(entries: seq<Name>, offset: nat, bufs: seq<seq<Byte>>)
    requires offset <= |entries|
    decreases |bufs|
  {
    && bufs != []
    && (offset < |entries| ==>
          && RecLen(entries[offset]) <= |bufs[0]|
          && Roomy(entries, Stop(entries, offset, |bufs[0]|, MAX_ENTRIES), bufs[1..]))
  }

  /** A call returns 0, and rewinds, exactly at the end or when the next record has no room. */
  lemma ZeroIff(entries: seq<Name>, offset: nat, buf: seq<Byte>)
    ensures var r := Getdents(Some(entries), offset, buf);
      && (r.count == 0 <==> offset >= |entries| || |buf| < RecLen(entries[offset]))
      && (r.count == 0 <==> r.offset == 0)
      && (r.count == 0 ==> r.buf == buf)
  {
    if offset < |entries| {
      EmitEnds(entries, offset, buf, 0, MAX_ENTRIES, 0);
      var j := Stop(entries, offset, |buf|, MAX_ENTRIES);
      if j > offset {
        TotalStep(entries, offset, j);
      }
    }
  }

  /**
    A call that stores something hands over the next stretch of the listing, as long a stretch as
    the buffer and the quota allow, and moves right past it.
  */
  lemma StretchRead(entries: seq<Name>, offset: nat, buf: seq<Byte>)
    requires AllListable(entries) && offset < |entries| && RecLen(entries[offset]) <= |buf|
    ensures var r := Getdents(Some(entries), offset, buf);
      && r.offset == Stop(entries, offset, |buf|, MAX_ENTRIES) > offset
      && 0 < r.count <= |r.buf| && Parse(r.buf[..r.count]) == Some(entries[offset..r.offset])
      && (r.offset < |entries| && r.offset < offset + 50 ==> |buf| < r.count + RecLen(entries[r.offset]))
      && r.offset <= offset + 50
  {
    ZeroIff(entries, offset, buf);
    EmitEnds(entries, offset, buf, 0, MAX_ENTRIES, 0);
    StopFits(entries, offset, |buf|, MAX_ENTRIES);
    EmitStores(entries, offset, buf, 0, MAX_ENTRIES, 0);
    var r := Getdents(Some(entries), offset, buf);
    var names := entries[offset..r.offset];
    assert forall k :: 0 <= k < |names| ==> names[k] == entries[offset + k] && names[k] in entries;
    RecordsParse(r.buf[0..r.count], names);
    assert r.buf[0..r.count] == r.buf[..r.count];
  }

  /** The buffer behind the bytes a call reports is as the client left it. */
  lemma RestUntouched(listing: Option<seq<Name>>, offset: nat, buf: seq<Byte>)
    ensures var r := Getdents(listing, offset, buf);
      r.count <= |r.buf| == |buf| && r.buf[r.count..] == buf[r.count..]
  {
    if listing.Some? {
      EmitBeyond(listing.value, offset, buf, 0, MAX_ENTRIES, 0);
    }
  }

  /**
    The listing as a whole: the client sees every remaining entry once and in order, with the
    position back at 0, if and only if each of its buffers had room for the next record.
  */
  lemma {:induction false} ListingIff(entries: seq<Name>, offset: nat, bufs: seq<seq<Byte>>)
    requires AllListable(entries) && offset <= |entries|
    ensures ReadAll(entries, offset, bufs) == Listed(entries[offset..], 0) <==> Roomy(entries, offset, bufs)
    decreases |bufs|
  {
    if bufs != [] {
      ZeroIff(entries, offset, bufs[0]);
      if offset < |entries| && RecLen(entries[offset]) <= |bufs[0]| {
        StretchRead(entries, offset, bufs[0]);
        var next := Stop(entries, offset, |bufs[0]|, MAX_ENTRIES);
        ListingIff(entries, next, bufs[1..]);
        assert entries[offset..] == entries[offset..next] + entries[next..];
        ContinueCancels(entries[offset..next], entries[next..], ReadAll(entries, next, bufs[1..]));
      }
    }
  }

  lemma ContinueCancels(first: seq<Name>, want: seq<Name>, got: Session)
    ensures Continue(first, got) == Listed(first + want, 0) <==> got == Listed(want, 0)
  {
    if got.Listed? && first + got.names == first + want {
      assert got.names == (first + got.names)[|first|..] == (first + want)[|first|..] == want;
    }
  }

  /**
    A session over two entries whose buffers hold the first but not the second: the client is told
    the listing is complete and never sees the second.
  */
  lemma SmallBufferHides(a: Name, b: Name, first: seq<Byte>, second: seq<Byte>)
    requires Listable(a) && Listable(b)
    requires RecLen(a) <= |first| < RecLen(a) + RecLen(b) && |second| < RecLen(b)
    ensures ReadAll([a, b], 0, [first, second]) == Listed([a], 0)
  {
    var entries, bufs := [a, b], [first, second];
    StretchRead(entries, 0, first);
    assert Stop(entries, 0, |first|, MAX_ENTRIES) == 1;
    assert entries[0..1] == [a];
    ZeroIff(entries, 1, second);
    assert bufs[1..] == [second];
    assert ReadAll(entries, 1, [second]) == Listed([], 0);
    assert [a] + [] == [a];
  }

  /* ---------- The open directory, with the buffer filled in place ---------- */

  method Store(buf: array<Byte>, at: nat, data: seq<Byte>)
    requires at + |data| <= buf.Length
    modifies buf
    ensures buf[..] == Patch(old(buf[..]), at, data)
  {
    for i := 0 to |data|
      invariant buf[..at] == old(buf[..at])
      invariant buf[at..at + i] == data[..i]
      invariant buf[at + i..] == old(buf[at + i..])
    {
      buf[at + i] := data[i];
    }
    assert buf[..] == buf[..at] + buf[at..at + |data|] + buf[at + |data|..];
  }

  class DirFile {
    var offset: nat

    method ReadEntries(listing: Option<seq<Name>>, buf: array<Byte>) returns (count: nat)
      modifies this, buf
      ensures Reply(buf[..], count, offset) == Getdents(listing, old(offset), old(buf[..]))
    {
      count := 0;
      if listing.None? {
        return;
      }
      var entries := listing.value;
      var i, finished, processed := offset, 0, 0;
      while i < |entries|
        invariant offset == old(offset) <= i
        invariant count <= buf.Length && processed <= MAX_ENTRIES
        invariant Getdents(listing, old(offset), old(buf[..]))
                  == Emit(entries, i, buf[..], count, MAX_ENTRIES - processed, finished)
      {
        processed := processed + 1;
        if processed > MAX_ENTRIES || buf.Length - count < RecLen(entries[i]) {
          break;
        }
        Store(buf, count, Written(entries[i]));
        count := count + RecLen(entries[i]);
        i := i + 1;
        finished := i;
      }
      offset := finished;
    }
  }
}
