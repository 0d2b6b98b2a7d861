/** One writer and one reader of the log ring, interleaved step by step.

A write is one sample of the offsets, a store per byte, and the publication of the
write offset; a read is one sample, a load per byte, and the publication of the
read offset.  Any step of either side, or of a host that stores what it likes in
`read_offset`, may come between any two others. */
module RttInterleaving {
  import opened RttRing

  datatype Writer = WriterIdle | Copying(record: seq<char>, stored: nat)

  datatype Reader = ReaderIdle | Taking(want: nat, from: nat, got: seq<char>)

  /** The shared ring, both sides' locals, and what has been published and released. */
  datatype State = State(
    buffer: seq<char>, writeOffset: nat, readOffset: nat,
    writer: Writer, reader: Reader,
    accepted: seq<seq<char>>, delivered: seq<char>)

  datatype Action =
    | WriteBegin(record: seq<char>)
    | WriteByte
    | WritePublish
    | ReadBegin(maxLen: nat)
    | ReadByte
    | ReadPublish
    | HostStore(value: nat)

  /** What the firmware itself relies on, whatever the host does. */
  predicate Safe(s: State) {
    var size := |s.buffer|;
    && s.writeOffset < size
    && (s.writer.Copying? ==> s.writer.stored <= |s.writer.record| < size)
    && (s.reader.Taking? ==> s.reader.from < size && |s.reader.got| <= s.reader.want < size)
  }

  /** A step that its side is not ready for does nothing.  Every store and load it
      makes is inside the buffer: that is what lets this function be written. */
  function Apply(s: State, a: Action): (t: State)
    requires Safe(s)
    ensures Safe(t) && |t.buffer| == |s.buffer|
  {
    var size := |s.buffer|;
    match a
    case WriteBegin(record) =>
      if s.writer.WriterIdle? && |record| <= Avail(size, Clamp(s.readOffset, size), s.writeOffset)
      then s.(writer := Copying(record, 0)) else s
    case WriteByte =>
      if s.writer.Copying? && s.writer.stored < |s.writer.record|
      then var k := s.writer.stored;
           s.(buffer := s.buffer[At(s.writeOffset, k, size) := s.writer.record[k]],
              writer := s.writer.(stored := k + 1))
      else s
    case WritePublish =>
      if s.writer.Copying? && s.writer.stored == |s.writer.record|
      then s.(writeOffset := After(s.writeOffset, |s.writer.record|, size), writer := WriterIdle,
              accepted := s.accepted + [s.writer.record])
      else s
    case ReadBegin(maxLen) =>
      var r := Clamp(s.readOffset, size);
      var pending := Pending(size, s.writeOffset, r);
      var want := if pending > maxLen then maxLen else pending;
      if s.reader.ReaderIdle? && want > 0 then s.(reader := Taking(want, r, [])) else s
    case ReadByte =>
      if s.reader.Taking? && |s.reader.got| < s.reader.want
      then s.(reader := s.reader.(got := s.reader.got + [s.buffer[At(s.reader.from, |s.reader.got|, size)]]))
      else s
    case ReadPublish =>
      if s.reader.Taking? && |s.reader.got| == s.reader.want
      then s.(readOffset := After(s.reader.from, s.reader.want, size), reader := ReaderIdle,
              delivered := s.delivered + s.reader.got)
      else s
    case HostStore(v) => s.(readOffset := v)
  }

  function Init(buffer: seq<char>): State {
    State(buffer, 0, 0, WriterIdle, ReaderIdle, [], [])
  }

  function Exec(s: State, run: seq<Action>): (t: State)
    requires Safe(s)
    ensures Safe(t) && |t.buffer| == |s.buffer|
  {
    if run == [] then s else Apply(Exec(s, run[..|run| - 1]), run[|run| - 1])
  }

  // ---------------------------------------------------------------------
  // The stream both sides agree on
  // ---------------------------------------------------------------------

  /** Published and not yet released. */
  function Backlog(s: State): int {
    |Flatten(s.accepted)| - |s.delivered|
  }

  predicate Faithful(s: State) {
    var size := |s.buffer|;
    var stream := Flatten(s.accepted);
    && Safe(s) && s.readOffset < size
    && 0 <= Backlog(s) < size
    && s.writeOffset == At(s.readOffset, Backlog(s), size)
    && s.delivered == stream[..|s.delivered|]
    && (forall k :: 0 <= k < Backlog(s) ==> s.buffer[At(s.readOffset, k, size)] == stream[|s.delivered| + k])
    && (s.writer.Copying? ==>
          && Backlog(s) + |s.writer.record| < size
          && forall k :: 0 <= k < s.writer.stored ==>
               s.buffer[At(s.readOffset, Backlog(s) + k, size)] == s.writer.record[k])
    && (s.reader.Taking? ==>
          && s.reader.from == s.readOffset && s.reader.want <= Backlog(s)
          && forall k :: 0 <= k < |s.reader.got| ==> s.reader.got[k] == stream[|s.delivered| + k])
  }

  lemma InitFaithful(buffer: seq<char>)
    requires |buffer| > 0
    ensures Faithful(Init(buffer))
  {
  }

  lemma BeginFaithful(s: State, a: Action)
    requires Faithful(s) && (a.WriteBegin? || a.ReadBegin?)
    ensures Faithful(Apply(s, a))
  {
    hide At, Flatten;
    FreeAndPending(|s.buffer|, s.readOffset, s.writeOffset);
    PendingIsDistance(|s.buffer|, s.readOffset, Backlog(s));
  }

  lemma WriteByteFaithful(s: State)
    requires Faithful(s)
    ensures Faithful(Apply(s, WriteByte))
  {
    hide Flatten;
    var t := Apply(s, WriteByte);
    if t != s {
      var size, k := |s.buffer|, s.writer.stored;
      Advance(size, s.readOffset, Backlog(s), k);
      assert At(s.writeOffset, k, size) == At(s.readOffset, Backlog(s) + k, size);
    }
  }

  lemma WritePublishFaithful(s: State)
    requires Faithful(s)
    ensures Faithful(Apply(s, WritePublish))
  {
    hide Flatten, At, After;
    var t := Apply(s, WritePublish);
    if s.writer.Copying? && s.writer.stored == |s.writer.record| {
      var size, rec := |s.buffer|, s.writer.record;
      FlattenSnoc(s.accepted, rec);
      Advance(size, s.writeOffset, |rec|, 0);
      Advance(size, s.readOffset, Backlog(s), |rec|);
    }
  }

  lemma ReadByteFaithful(s: State)
    requires Faithful(s)
    ensures Faithful(Apply(s, ReadByte))
  {
    hide Flatten, At;
  }

  lemma ReadPublishFaithful(s: State)
    requires Faithful(s)
    ensures Faithful(Apply(s, ReadPublish))
  {
    hide Flatten, At, After;
    var t := Apply(s, ReadPublish);
    if s.reader.Taking? && |s.reader.got| == s.reader.want {
      var size, n, stream := |s.buffer|, s.reader.want, Flatten(s.accepted);
      Advance(size, s.readOffset, n, 0);
      forall k: nat | n + k < size ensures At(t.readOffset, k, size) == At(s.readOffset, n + k, size) {
        Advance(size, s.readOffset, n, k);
      }
      assert s.reader.got == stream[|s.delivered|..|s.delivered| + n];
      assert t.delivered == stream[..|t.delivered|];
    }
  }

  lemma ApplyFaithful(s: State, a: Action)
    requires Faithful(s) && !a.HostStore?
    ensures Faithful(Apply(s, a))
  {
    hide Faithful, Apply, Flatten;
    match a
    case WriteBegin(_) => BeginFaithful(s, a);
    case ReadBegin(_) => BeginFaithful(s, a);
    case WriteByte => WriteByteFaithful(s);
    case WritePublish => WritePublishFaithful(s);
    case ReadByte => ReadByteFaithful(s);
    case ReadPublish => ReadPublishFaithful(s);
    case HostStore(_) =>
  }

  predicate HostBehaves(run: seq<Action>) {
    forall i :: 0 <= i < |run| ==> !run[i].HostStore?
  }

  lemma {:induction false} ExecFaithful(buffer: seq<char>, run: seq<Action>)
    requires |buffer| > 0 && HostBehaves(run)
    ensures Faithful(Exec(Init(buffer), run))
  {
    hide Faithful, Apply, Flatten;
    if run == [] {
      InitFaithful(buffer);
    } else {
      ExecFaithful(buffer, run[..|run| - 1]);
      ApplyFaithful(Exec(Init(buffer), run[..|run| - 1]), run[|run| - 1]);
    }
  }

  /** For every interleaving, what the reader has is a prefix of the accepted
      records, whole and in order, and at most the ring's capacity behind. */
  lemma DeliveredIsPrefix(buffer: seq<char>, run: seq<Action>)
    requires |buffer| > 0 && HostBehaves(run)
    ensures var s := Exec(Init(buffer), run);
      s.delivered <= Flatten(s.accepted) && |Flatten(s.accepted)| - |s.delivered| < |buffer|
  {
    ExecFaithful(buffer, run);
  }

  /** No byte that is still unread, or being read, is ever stored to. */
  lemma UnreadNeverOverwritten(buffer: seq<char>, run: seq<Action>, k: nat)
    requires |buffer| > 0 && HostBehaves(run)
    requires var s := Exec(Init(buffer), run); k < Backlog(s)
    ensures k < |buffer|
    ensures var s := Exec(Init(buffer), run);
      var i := At(Clamp(s.readOffset, |buffer|), k, |buffer|);
      Apply(s, WriteByte).buffer[i] == s.buffer[i] == Flatten(s.accepted)[|s.delivered| + k]
  {
    hide Flatten, Exec;
    ExecFaithful(buffer, run);
    var s := Exec(Init(buffer), run);
    WriteByteFaithful(s);
  }

  /** A record is taken exactly when it fits beside what is unread at that moment;
      a refused one changes nothing. */
  lemma AcceptedIffFits(buffer: seq<char>, run: seq<Action>, record: seq<char>)
    requires |buffer| > 0 && HostBehaves(run)
    requires Exec(Init(buffer), run).writer.WriterIdle?
    ensures var s := Exec(Init(buffer), run);
      Apply(s, WriteBegin(record)) ==
        if Backlog(s) + |record| < |buffer| then s.(writer := Copying(record, 0)) else s
  {
    hide Flatten, Exec;
    ExecFaithful(buffer, run);
    var s := Exec(Init(buffer), run);
    FreeAndPending(|buffer|, s.readOffset, s.writeOffset);
    PendingIsDistance(|buffer|, s.readOffset, Backlog(s));
  }

  /** What a reader that sampled the offsets now would find in the ring. */
  function InRing(s: State): seq<char>
    requires Safe(s)
  {
    var size := |s.buffer|;
    var r := Clamp(s.readOffset, size);
    Unread(s.buffer, r, Pending(size, s.writeOffset, r))
  }

  lemma InRingIsBacklog(s: State)
    requires Faithful(s)
    ensures |s.delivered| <= |Flatten(s.accepted)| && InRing(s) == Flatten(s.accepted)[|s.delivered|..]
  {
    hide Flatten, At;
    PendingIsDistance(|s.buffer|, s.readOffset, Backlog(s));
    assert |InRing(s)| == Backlog(s);
  }

  /** A record copied to its end appears in the ring whole when it is published, behind
      what was unread, and not before: however its bytes and the reader's loads and
      releases interleaved. */
  lemma PublishedWhole(buffer: seq<char>, run: seq<Action>)
    requires |buffer| > 0 && HostBehaves(run)
    requires var w := Exec(Init(buffer), run).writer; w.Copying? && w.stored == |w.record|
    ensures var s := Exec(Init(buffer), run);
      InRing(Apply(s, WritePublish)) == InRing(s) + s.writer.record
  {
    hide Flatten, Exec, At, InRing, Faithful;
    ExecFaithful(buffer, run);
    var s := Exec(Init(buffer), run);
    WritePublishFaithful(s);
    FlattenSnoc(s.accepted, s.writer.record);
    InRingIsBacklog(s);
    InRingIsBacklog(Apply(s, WritePublish));
  }

  /** Until then the reader finds what it found before. */
  lemma UnpublishedUnseen(buffer: seq<char>, run: seq<Action>)
    requires |buffer| > 0 && HostBehaves(run)
    ensures var s := Exec(Init(buffer), run);
      InRing(Apply(s, WriteByte)) == InRing(s)
  {
    hide Flatten, Exec, At, InRing, Faithful;
    ExecFaithful(buffer, run);
    var s := Exec(Init(buffer), run);
    WriteByteFaithful(s);
    InRingIsBacklog(s);
    InRingIsBacklog(Apply(s, WriteByte));
  }

  /** A read that runs to its end delivers as much as was published when it began,
      up to its limit, however the writer interferes meanwhile. */
  lemma ReadTakesAllPublished(buffer: seq<char>, run: seq<Action>, maxLen: nat)
    requires |buffer| > 0 && HostBehaves(run) && Exec(Init(buffer), run).reader.ReaderIdle?
    ensures var s := Exec(Init(buffer), run);
      var want := if Backlog(s) > maxLen then maxLen else Backlog(s);
      Apply(s, ReadBegin(maxLen)).reader == if want > 0 then Taking(want, s.readOffset, []) else ReaderIdle
  {
    hide Flatten, Exec;
    ExecFaithful(buffer, run);
    var s := Exec(Init(buffer), run);
    PendingIsDistance(|buffer|, s.readOffset, Backlog(s));
  }

  /** Whatever the host stores, and whenever: the offsets the two sides use and the
      place of every next store and load stay inside the buffer, and a query's free
      and pending counts add up to the ring. */
  lemma HostileHostHarmless(buffer: seq<char>, run: seq<Action>)
    requires |buffer| > 0
    ensures var s := Exec(Init(buffer), run);
      var size := |buffer|;
      var r := Clamp(s.readOffset, size);
      && |s.buffer| == size && s.writeOffset < size && r < size
      && (s.writer.Copying? && s.writer.stored < |s.writer.record| ==> At(s.writeOffset, s.writer.stored, size) < size)
      && (s.reader.Taking? && |s.reader.got| < s.reader.want ==> At(s.reader.from, |s.reader.got|, size) < size)
      && Avail(size, r, s.writeOffset) + Pending(size, s.writeOffset, r) + 1 == size
  {
    hide At;
    var s := Exec(Init(buffer), run);
    FreeAndPending(|buffer|, Clamp(s.readOffset, |buffer|), s.writeOffset);
  }
}
