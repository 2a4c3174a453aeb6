/** The buffered, rotating file writer (`FileWriterModule::flusher`). */
module FileWriter {
  import opened Arithmetic
  import opened Sequences

  type Bytes = seq<bv8>

  // A file is the list of the writes made to it, so that both its bytes and the size of every write are visible.
  type File = seq<Bytes>

  function Size(f: File): nat {
    |Flat(f)|
  }

  function Contents(files: seq<File>): Bytes {
    if files == [] then [] else Contents(files[..|files| - 1]) + Flat(files[|files| - 1])
  }

  // How the writer is told to stop: at the test of the outer loop, or inside the wait for the next payload.
  datatype Exit = LoopTest | StopBranch

  /** `writes` then `rest` is `data` cut into pieces of exactly `max` bytes, the last of them kept back in `rest`. */
  ghost predicate Chunked(writes: File, rest: Bytes, data: Bytes, max: nat) {
    && Flat(writes) + rest == data
    && (forall w <- writes :: |w| == max)
    && |rest| <= max
    && (rest == [] ==> writes == [])
  }

  /** There is only one such cutting, so `Chunked` fixes every write the file writer makes. */
  lemma ChunkedUnique(w1: File, r1: Bytes, w2: File, r2: Bytes, data: Bytes, max: nat)
    requires Chunked(w1, r1, data, max) && Chunked(w2, r2, data, max)
    ensures w1 == w2 && r1 == r2
  {
    FlatSize(w1, max);
    FlatSize(w2, max);
    SameCount(|w1|, |r1|, |w2|, |r2|, max);
    assert Flat(w1) == data[..Size(w1)] && r1 == data[Size(w1)..];
    assert Flat(w2) == data[..Size(w2)] && r2 == data[Size(w2)..];
    SameCuts(w1, w2, max);
  }

  lemma SameCount(k1: nat, r1: nat, k2: nat, r2: nat, max: nat)
    requires k1 * max + r1 == k2 * max + r2
    requires r1 <= max && r2 <= max && (r1 == 0 ==> k1 == 0) && (r2 == 0 ==> k2 == 0)
    ensures k1 == k2
  {
    if k1 < k2 {
      FewerPieces(k1, r1, k2, r2, max);
    } else if k2 < k1 {
      FewerPieces(k2, r2, k1, r1, max);
    }
  }

  lemma FewerPieces(k1: nat, r1: nat, k2: nat, r2: nat, max: nat)
    requires k1 < k2 && r1 <= max && (k2 > 0 ==> r2 > 0)
    ensures k1 * max + r1 < k2 * max + r2
  {
    Multiples(k1, k2, max);
  }

  lemma {:induction false} FlatSize(ws: File, max: nat)
    requires forall w <- ws :: |w| == max
    ensures Size(ws) == |ws| * max
  {
    if ws != [] {
      var n := |ws| - 1;
      FlatSize(ws[..n], max);
      assert ws[n] in ws;
      assert |ws| * max == n * max + max;
    }
  }

  lemma {:induction false} SameCuts(a: File, b: File, max: nat)
    requires |a| == |b| && Flat(a) == Flat(b)
    requires (forall w <- a :: |w| == max) && (forall w <- b :: |w| == max)
    ensures a == b
  {
    if a != [] {
      var n := |a| - 1;
      FlatSize(a[..n], max);
      FlatSize(b[..n], max);
      assert Flat(a[..n]) == Flat(a)[..n * max] && a[n] == Flat(a)[n * max..];
      assert Flat(b[..n]) == Flat(b)[..n * max] && b[n] == Flat(b)[n * max..];
      SameCuts(a[..n], b[..n], max);
      assert a == a[..n] + [a[n]] && b == b[..n] + [b[n]];
    }
  }

  /** File `f` was closed by rotation after receiving exactly the payloads `group`, none of them in part. */
  ghost predicate RotatedAfter(f: File, group: seq<Bytes>, maxBuffer: nat, maxFile: nat) {
    && f != [] && group != []
    && Chunked(f[..|f| - 1], f[|f| - 1], Flat(group), maxBuffer)
    && Size(f) == |Flat(group)|
    && |Flat(group[..|group| - 1])| <= maxFile < Size(f)
  }

  /** The files written before the open one: one group of consecutive whole payloads each. */
  ghost predicate Rotated(files: seq<File>, groups: seq<seq<Bytes>>, maxBuffer: nat, maxFile: nat) {
    && |files| == |groups|
    && forall i :: 0 <= i < |files| ==> RotatedAfter(files[i], groups[i], maxBuffer, maxFile)
  }

  lemma RotatedSizeBound(f: File, group: seq<Bytes>, maxBuffer: nat, maxFile: nat)
    requires RotatedAfter(f, group, maxBuffer, maxFile)
    ensures maxFile < Size(f) <= maxFile + |group[|group| - 1]|
    ensures Flat(f) == Flat(group)
  {
    assert f == f[..|f| - 1] + [f[|f| - 1]];
    FlatSnoc(f[..|f| - 1], f[|f| - 1]);
  }

  /** Rotated files hold exactly the bytes of the payloads of their groups. */
  lemma {:induction false} RotatedContents(files: seq<File>, groups: seq<seq<Bytes>>, maxBuffer: nat, maxFile: nat)
    requires Rotated(files, groups, maxBuffer, maxFile)
    ensures Contents(files) == Flat(Flat(groups))
  {
    hide Flat, RotatedAfter;
    if files == [] {
      FlatNothing<Bytes>();
      FlatNothing<bv8>();
    } else {
      var n := |files| - 1;
      RotatedContents(files[..n], groups[..n], maxBuffer, maxFile);
      RotatedSizeBound(files[n], groups[n], maxBuffer, maxFile);
      assert groups == groups[..n] + [groups[n]];
      FlatSnoc(groups[..n], groups[n]);
      FlatConcat(Flat(groups[..n]), groups[n]);
    }
  }

  lemma FlatNothing<T>()
    ensures Flat<T>([]) == []
  {
  }

  lemma ContentsSnoc(files: seq<File>, f: File)
    ensures Contents(files + [f]) == Contents(files) + Flat(f)
  {
    assert (files + [f])[..|files|] == files;
  }

  /** A payload that does not fit in the buffer: fill the buffer, write it, and write full buffers while the tail is
      longer than the buffer. `out` and `buffer` hold the bytes `data`. */
  method Split(out: File, buffer: Bytes, payload: Bytes, ghost data: Bytes, max: nat)
    returns (writes: File, rest: Bytes, flushed: nat)
    requires max > 0 && Chunked(out, buffer, data, max) && |buffer| + |payload| > max
    ensures Chunked(writes, rest, data + payload, max)
    ensures Size(writes) == Size(out) + flushed
  {
    var offset := max - |buffer|;
    FlatSnoc(out, buffer + payload[..offset]);
    writes, rest, flushed := out + [buffer + payload[..offset]], payload[offset..], max;
    assert data + payload == Flat(out) + (buffer + payload[..offset]) + rest;
    while |rest| > max
      invariant rest != [] && Flat(writes) + rest == data + payload
      invariant forall w <- writes :: |w| == max
      invariant Size(writes) == Size(out) + flushed
    {
      FlatSnoc(writes, rest[..max]);
      assert Flat(writes) + rest == Flat(writes) + rest[..max] + rest[max..];
      writes, rest, flushed := writes + [rest[..max]], rest[max..], flushed + max;
    }
  }

  /** The tail of a payload after `rounds` rounds of the split loop; a round drops `max` bytes. */
  function TailAfter(tail: nat, rounds: nat, max: nat): int {
    tail - rounds * max
  }

  /** The split loop reaches its exit test for some number of rounds exactly when the buffer size is positive or the
      loop is not entered; a zero buffer size with a non-empty payload never leaves it. */
  lemma SplitTerminatesIff(tail: nat, max: nat)
    ensures (exists rounds: nat :: TailAfter(tail, rounds, max) <= max) <==> max > 0 || tail == 0
  {
    if max > 0 {
      assert tail * max >= tail;
      assert TailAfter(tail, tail, max) <= max;
    } else if tail == 0 {
      assert TailAfter(tail, 0, max) <= max;
    }
  }

  // The local variables of the consumer thread at the head of its outer loop. `popped` is what has been taken from the
  // queue, `done` the payloads of each closed file and `pending` those in the open file and the buffer.
  datatype Locals = Locals(closed: seq<File>, out: File, buffer: Bytes)

  ghost predicate LoopHead(s: Locals, popped: seq<Bytes>, done: seq<seq<Bytes>>, pending: seq<Bytes>,
                           maxBuffer: nat, maxFile: nat)
  {
    && Chunked(s.out, s.buffer, Flat(pending), maxBuffer)
    && Rotated(s.closed, done, maxBuffer, maxFile)
    && Flat(done) + pending == popped
    && (pending != [] ==> |Flat(pending[..|pending| - 1])| <= maxFile)
  }

  /** At every loop head the payloads popped so far are the closed files, the open file and the buffer, in order. */
  lemma LoopHeadContents(s: Locals, popped: seq<Bytes>, done: seq<seq<Bytes>>, pending: seq<Bytes>,
                         maxBuffer: nat, maxFile: nat)
    requires LoopHead(s, popped, done, pending, maxBuffer, maxFile)
    ensures Contents(s.closed) + (Flat(s.out) + s.buffer) == Flat(popped)
  {
    RotatedContents(s.closed, done, maxBuffer, maxFile);
    FlatConcat(Flat(done), pending);
  }

  lemma LoopHeadAtStart(maxBuffer: nat, maxFile: nat)
    ensures LoopHead(Locals([], [], []), [], [], [], maxBuffer, maxFile) && Size([]) == 0
  {
  }

  lemma RotateKeepsLoopHead(s: Locals, popped: seq<Bytes>, done: seq<seq<Bytes>>, pending: seq<Bytes>,
                            maxBuffer: nat, maxFile: nat)
    requires LoopHead(s, popped, done, pending, maxBuffer, maxFile)
    requires Size(s.out) + |s.buffer| > maxFile
    ensures Size([]) == 0
    ensures LoopHead(Locals(s.closed + [s.out + [s.buffer]], [], []), popped, done + [pending], [], maxBuffer, maxFile)
  {
    hide Flat, RotatedAfter, Rotated;
    var f := s.out + [s.buffer];
    ClosingRotates(s.out, s.buffer, pending, maxBuffer, maxFile);
    RotatedSnoc(s.closed, done, f, pending, maxBuffer, maxFile);
    FlatSnoc(done, pending);
    FlatNothing<bv8>();
    assert Flat(done) + pending + [] == Flat(done) + pending;
  }

  lemma ClosingRotates(out: File, buffer: Bytes, pending: seq<Bytes>, maxBuffer: nat, maxFile: nat)
    requires Chunked(out, buffer, Flat(pending), maxBuffer) && Size(out) + |buffer| > maxFile
    requires pending != [] ==> |Flat(pending[..|pending| - 1])| <= maxFile
    ensures RotatedAfter(out + [buffer], pending, maxBuffer, maxFile)
  {
    var f := out + [buffer];
    assert f[..|f| - 1] == out && f[|f| - 1] == buffer;
    FlatSnoc(out, buffer);
  }

  lemma RotatedSnoc(files: seq<File>, groups: seq<seq<Bytes>>, f: File, group: seq<Bytes>,
                    maxBuffer: nat, maxFile: nat)
    requires Rotated(files, groups, maxBuffer, maxFile) && RotatedAfter(f, group, maxBuffer, maxFile)
    ensures Rotated(files + [f], groups + [group], maxBuffer, maxFile)
  {
  }

  lemma PopKeepsLoopHead(s: Locals, out: File, buffer: Bytes, payload: Bytes, popped: seq<Bytes>,
                         done: seq<seq<Bytes>>, pending: seq<Bytes>, maxBuffer: nat, maxFile: nat)
    requires LoopHead(s, popped, done, pending, maxBuffer, maxFile) && Size(s.out) + |s.buffer| <= maxFile
    requires Chunked(out, buffer, Flat(pending) + payload, maxBuffer)
    ensures LoopHead(Locals(s.closed, out, buffer), popped + [payload], done, pending + [payload], maxBuffer, maxFile)
  {
    FlatSnoc(pending, payload);
    assert (pending + [payload])[..|pending|] == pending;
    assert Flat(done) + (pending + [payload]) == popped + [payload];
  }

  /** What the consumer thread leaves behind when it returns with `popped` taken from the queue. */
  ghost predicate Returned(files: seq<File>, unwritten: Bytes, groups: seq<seq<Bytes>>, popped: seq<Bytes>, exit: Exit,
                           maxBuffer: nat, maxFile: nat)
  {
    // Nothing is lost, repeated or reordered, except that leaving by the loop test leaves the buffer behind.
    && Contents(files) + unwritten == Flat(popped)
    && |unwritten| <= maxBuffer
    && (exit.StopBranch? ==> unwritten == [])
    // No payload straddles two files, and each rotated file ended with the payload that made it too large.
    && files != [] && |groups| == |files| && Flat(groups) == popped
    && Rotated(files[..|files| - 1], groups[..|groups| - 1], maxBuffer, maxFile)
    // A file is only opened for a payload that follows (the first file excepted).
    && (groups[|groups| - 1] == [] ==> popped == [])
    // The open file: full-buffer writes only, plus the final flush when the stop branch was taken.
    && OpenFile(files[|files| - 1], unwritten, groups[|groups| - 1], exit, maxBuffer, maxFile)
  }

  ghost predicate OpenFile(f: File, unwritten: Bytes, group: seq<Bytes>, exit: Exit, maxBuffer: nat, maxFile: nat) {
    && (exit.LoopTest? ==> Chunked(f, unwritten, Flat(group), maxBuffer))
    && (exit.StopBranch? ==> f != [] && Chunked(f[..|f| - 1], f[|f| - 1], Flat(group), maxBuffer))
    && (group != [] ==> |Flat(group[..|group| - 1])| <= maxFile)
  }

  /** Leaving by the loop test loses bytes exactly when the payloads of the open file are not all empty. In particular
      it loses bytes whenever the last payload taken from the queue is not empty. */
  lemma LoopTestLosesIff(files: seq<File>, unwritten: Bytes, groups: seq<seq<Bytes>>, popped: seq<Bytes>,
                         maxBuffer: nat, maxFile: nat)
    requires Returned(files, unwritten, groups, popped, LoopTest, maxBuffer, maxFile)
    ensures Contents(files) != Flat(popped) <==> Flat(groups[|groups| - 1]) != []
    ensures popped != [] && popped[|popped| - 1] != [] ==> Contents(files) != Flat(popped)
  {
    var last := groups[|groups| - 1];
    if last != [] {
      assert popped == Flat(groups[..|groups| - 1]) + last;
      assert popped[|popped| - 1] == last[|last| - 1];
    }
    assert |Contents(files)| + |unwritten| == |Flat(popped)|;
  }

  // --- the contract leaves no choice: the payloads and the two sizes determine every file and every write ---

  ghost predicate Grouped(groups: seq<seq<Bytes>>, maxFile: nat) {
    && groups != []
    && (forall i :: 0 <= i < |groups| - 1 ==> FillsFile(groups[i], maxFile))
    && var last := groups[|groups| - 1];
       (if last == [] then |groups| == 1 else |Flat(last[..|last| - 1])| <= maxFile)
  }

  ghost predicate FillsFile(group: seq<Bytes>, maxFile: nat) {
    group != [] && |Flat(group[..|group| - 1])| <= maxFile < |Flat(group)|
  }

  lemma NoShorterGroup(a: seq<Bytes>, b: seq<Bytes>, maxFile: nat)
    requires a <= b && FillsFile(a, maxFile) && b != [] && |Flat(b[..|b| - 1])| <= maxFile
    ensures a == b
  {
    if |a| < |b| {
      var front := b[..|b| - 1];
      assert front == a + front[|a|..];
      FlatConcat(a, front[|a|..]);
    }
  }

  lemma FlatFirst(g: seq<seq<Bytes>>)
    requires g != []
    ensures Flat(g) == g[0] + Flat(g[1..])
  {
    assert g == [g[0]] + g[1..];
    FlatConcat([g[0]], g[1..]);
    FlatSingle(g[0]);
  }

  lemma {:induction false} GroupsUnique(g: seq<seq<Bytes>>, h: seq<seq<Bytes>>, maxFile: nat)
    requires Grouped(g, maxFile) && Grouped(h, maxFile) && Flat(g) == Flat(h)
    ensures g == h
  {
    hide Flat;
    if |g| == 1 && |h| == 1 {
      FlatSingle(g[0]);
      FlatSingle(h[0]);
      assert g == [g[0]] && h == [h[0]];
    } else if |g| == 1 {
      NotOneGroup(h, g, maxFile);
    } else if |h| == 1 {
      NotOneGroup(g, h, maxFile);
    } else {
      LaterPayloads(g, maxFile);
      LaterPayloads(h, maxFile);
      FlatFirst(g);
      FlatFirst(h);
      SameFirstGroup(g[0], Flat(g[1..]), h[0], Flat(h[1..]), maxFile);
      GroupsUnique(g[1..], h[1..], maxFile);
      assert g == [g[0]] + g[1..] && h == [h[0]] + h[1..];
    }
  }

  /** Several groups cannot hold the same payloads as a single one. */
  lemma NotOneGroup(g: seq<seq<Bytes>>, h: seq<seq<Bytes>>, maxFile: nat)
    requires Grouped(g, maxFile) && Grouped(h, maxFile) && |g| > 1 && |h| == 1
    ensures Flat(g) != Flat(h)
  {
    hide Flat;
    LaterPayloads(g, maxFile);
    FlatFirst(g);
    FlatSingle(h[0]);
    assert h == [h[0]];
    if Flat(g) == Flat(h) {
      assert h[0] == g[0] + Flat(g[1..]);
      NoShorterGroup(g[0], h[0], maxFile);
    }
  }

  lemma LaterPayloads(g: seq<seq<Bytes>>, maxFile: nat)
    requires Grouped(g, maxFile) && |g| > 1
    ensures Flat(g[1..]) != [] && FillsFile(g[0], maxFile) && Grouped(g[1..], maxFile)
  {
    FlatFirst(g[1..]);
  }

  lemma SameFirstGroup(a: seq<Bytes>, a': seq<Bytes>, b: seq<Bytes>, b': seq<Bytes>, maxFile: nat)
    requires a + a' == b + b' && FillsFile(a, maxFile) && FillsFile(b, maxFile)
    ensures a == b && a' == b'
  {
    assert a == (a + a')[..|a|] && b == (b + b')[..|b|];
    if |a| <= |b| {
      assert a == b[..|a|];
      NoShorterGroup(a, b, maxFile);
    } else {
      assert b == a[..|b|];
      NoShorterGroup(b, a, maxFile);
    }
    assert a' == (a + a')[|a|..] && b' == (b + b')[|b|..];
  }

  lemma ReturnedGrouped(files: seq<File>, unwritten: Bytes, groups: seq<seq<Bytes>>, popped: seq<Bytes>, exit: Exit,
                        maxBuffer: nat, maxFile: nat)
    requires Returned(files, unwritten, groups, popped, exit, maxBuffer, maxFile)
    ensures Grouped(groups, maxFile)
  {
    var n := |groups| - 1;
    forall i | 0 <= i < n ensures FillsFile(groups[i], maxFile) {
      assert groups[..n][i] == groups[i] && RotatedAfter(files[..n][i], groups[i], maxBuffer, maxFile);
    }
    if n > 0 {
      assert FillsFile(groups[0], maxFile);
      FlatFirst(groups);
    }
  }

  /** Any two returns of the consumer thread for the same payloads are the same, write by write. */
  lemma ReturnedUnique(f1: seq<File>, u1: Bytes, g1: seq<seq<Bytes>>, f2: seq<File>, u2: Bytes, g2: seq<seq<Bytes>>,
                       popped: seq<Bytes>, exit: Exit, maxBuffer: nat, maxFile: nat)
    requires Returned(f1, u1, g1, popped, exit, maxBuffer, maxFile)
    requires Returned(f2, u2, g2, popped, exit, maxBuffer, maxFile)
    ensures f1 == f2 && u1 == u2
  {
    hide Flat, Contents, Rotated, OpenFile;
    ReturnedGrouped(f1, u1, g1, popped, exit, maxBuffer, maxFile);
    ReturnedGrouped(f2, u2, g2, popped, exit, maxBuffer, maxFile);
    GroupsUnique(g1, g2, maxFile);
    var n := |f1| - 1;
    SameRotatedFiles(f1[..n], f2[..n], g1[..n], maxBuffer, maxFile);
    SameOpenFile(f1[n], u1, f2[n], u2, g1[n], exit, maxBuffer, maxFile);
    assert f1 == f1[..n] + [f1[n]] && f2 == f2[..n] + [f2[n]];
  }

  lemma SameRotatedFiles(a: seq<File>, b: seq<File>, groups: seq<seq<Bytes>>, maxBuffer: nat, maxFile: nat)
    requires Rotated(a, groups, maxBuffer, maxFile) && Rotated(b, groups, maxBuffer, maxFile)
    ensures a == b
  {
    forall i | 0 <= i < |a| ensures a[i] == b[i] {
      assert RotatedAfter(a[i], groups[i], maxBuffer, maxFile) && RotatedAfter(b[i], groups[i], maxBuffer, maxFile);
      SameFile(a[i], b[i], Flat(groups[i]), maxBuffer);
    }
  }

  lemma SameOpenFile(a: File, u: Bytes, b: File, v: Bytes, group: seq<Bytes>, exit: Exit, maxBuffer: nat, maxFile: nat)
    requires OpenFile(a, u, group, exit, maxBuffer, maxFile) && OpenFile(b, v, group, exit, maxBuffer, maxFile)
    requires exit.StopBranch? ==> u == v == []
    ensures a == b && u == v
  {
    if exit.LoopTest? {
      ChunkedUnique(a, u, b, v, Flat(group), maxBuffer);
    } else {
      SameFile(a, b, Flat(group), maxBuffer);
    }
  }

  lemma SameFile(a: File, b: File, data: Bytes, max: nat)
    requires a != [] && b != []
    requires Chunked(a[..|a| - 1], a[|a| - 1], data, max) && Chunked(b[..|b| - 1], b[|b| - 1], data, max)
    ensures a == b
  {
    ChunkedUnique(a[..|a| - 1], a[|a| - 1], b[..|b| - 1], b[|b| - 1], data, max);
    assert a == a[..|a| - 1] + [a[|a| - 1]] && b == b[..|b| - 1] + [b[|b| - 1]];
  }

  lemma AddOpenFile(closed: seq<File>, f: File, unwritten: Bytes, done: seq<seq<Bytes>>, pending: seq<Bytes>)
    ensures Contents(closed + [f]) + unwritten == Contents(closed) + (Flat(f) + unwritten)
    ensures Flat(done + [pending]) == Flat(done) + pending
    ensures (closed + [f])[..|closed|] == closed && (done + [pending])[..|done|] == done
  {
    ContentsSnoc(closed, f);
    Assoc(Contents(closed), Flat(f), unwritten);
    FlatSnoc(done, pending);
  }

  lemma LeavingByLoopTest(s: Locals, popped: seq<Bytes>, done: seq<seq<Bytes>>, pending: seq<Bytes>,
                          maxBuffer: nat, maxFile: nat)
    requires LoopHead(s, popped, done, pending, maxBuffer, maxFile) && (pending == [] ==> popped == [])
    ensures Returned(s.closed + [s.out], s.buffer, done + [pending], popped, LoopTest, maxBuffer, maxFile)
  {
    LoopHeadContents(s, popped, done, pending, maxBuffer, maxFile);
    AddOpenFile(s.closed, s.out, s.buffer, done, pending);
  }

  lemma LeavingByStopBranch(s: Locals, popped: seq<Bytes>, done: seq<seq<Bytes>>, pending: seq<Bytes>,
                            maxBuffer: nat, maxFile: nat)
    requires LoopHead(s, popped, done, pending, maxBuffer, maxFile) && (pending == [] ==> popped == [])
    ensures Returned(s.closed + [s.out + [s.buffer]], [], done + [pending], popped, StopBranch, maxBuffer, maxFile)
  {
    var f := s.out + [s.buffer];
    LoopHeadContents(s, popped, done, pending, maxBuffer, maxFile);
    FlatSnoc(s.out, s.buffer);
    AddOpenFile(s.closed, f, [], done, pending);
    assert f[..|f| - 1] == s.out && f[|f| - 1] == s.buffer;
  }

  /** Puts one payload into the buffer and the open file, which hold the payloads `pending`. */
  method Store(out: File, buffer: Bytes, payload: Bytes, ghost pending: seq<Bytes>, maxBuffer: nat)
    returns (writes: File, rest: Bytes, flushed: nat)
    requires Chunked(out, buffer, Flat(pending), maxBuffer) && (maxBuffer > 0 || payload == [])
    ensures Chunked(writes, rest, Flat(pending) + payload, maxBuffer)
    ensures Size(writes) == Size(out) + flushed
  {
    if |payload| + |buffer| <= maxBuffer {
      writes, rest, flushed := out, buffer + payload, 0;
      assert Flat(out) + rest == Flat(pending) + payload;
    } else {
      writes, rest, flushed := Split(out, buffer, payload, Flat(pending), maxBuffer);
    }
  }

  /** The consumer thread of one channel. `queue[..pops]` are the payloads popped before the stop flag is seen, and
      `exit` is the place where it is seen. The result is every file written (the last one is the file that was open)
      and the bytes still in memory on return. */
  method Flusher(queue: seq<Bytes>, pops: nat, exit: Exit, maxBuffer: nat, maxFile: nat)
    returns (files: seq<File>, unwritten: Bytes)
    requires pops <= |queue|
    requires maxBuffer > 0 || forall i :: 0 <= i < pops ==> queue[i] == []
    ensures exists groups :: Returned(files, unwritten, groups, queue[..pops], exit, maxBuffer, maxFile)
  {
    hide Rotated, Flat, Contents;
    LoopHeadAtStart(maxBuffer, maxFile);
    var closed: seq<File>, out: File, bytesWritten, buffer: Bytes := [], [], 0, [];
    ghost var done: seq<seq<Bytes>>, pending: seq<Bytes> := [], [];
    for i := 0 to pops
      invariant bytesWritten == Size(out) && (pending == [] ==> i == 0)
      invariant LoopHead(Locals(closed, out, buffer), queue[..i], done, pending, maxBuffer, maxFile)
    {
      if bytesWritten + |buffer| > maxFile {
        RotateKeepsLoopHead(Locals(closed, out, buffer), queue[..i], done, pending, maxBuffer, maxFile);
        closed, done := closed + [out + [buffer]], done + [pending];
        out, bytesWritten, buffer, pending := [], 0, [], [];
      }
      var payload := queue[i];
      var writes, rest, flushed := Store(out, buffer, payload, pending, maxBuffer);
      PopKeepsLoopHead(Locals(closed, out, buffer), writes, rest, payload, queue[..i], done, pending,
                       maxBuffer, maxFile);
      PrefixSnoc(queue, i);
      out, buffer, bytesWritten, pending := writes, rest, bytesWritten + flushed, pending + [payload];
    }
    if exit.StopBranch? {
      LeavingByStopBranch(Locals(closed, out, buffer), queue[..pops], done, pending, maxBuffer, maxFile);
      out, buffer := out + [buffer], [];
    } else {
      LeavingByLoopTest(Locals(closed, out, buffer), queue[..pops], done, pending, maxBuffer, maxFile);
    }
    files, unwritten := closed + [out], buffer;
    assert Returned(files, unwritten, done + [pending], queue[..pops], exit, maxBuffer, maxFile);
  }
}
