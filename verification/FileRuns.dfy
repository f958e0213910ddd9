/** Runs over one open file: what writes, reads and seeks in a row do. */
module FileRuns {
  import opened Arith
  import opened Wrappers
  import opened BlockStore
  import opened Store
  import opened ChainReader
  import opened FileSystem
  import opened Runs

  /** The descriptor is open on a file with that content, at that position. */
  ghost predicate OpenAt(s: State, fd: nat, pos: nat, content: seq<byte>) {
    && fd in s.open && s.open[fd].inodeNo < |s.contents|
    && s.open[fd].position == pos && s.contents[s.open[fd].inodeNo] == content
  }

  function Writes(fd: nat, bufs: seq<seq<byte>>): (ops: seq<Op>)
    ensures |ops| == |bufs| && forall k :: 0 <= k < |bufs| ==> ops[k] == WriteOp(fd, bufs[k])
  {
    seq(|bufs|, k requires 0 <= k < |bufs| => WriteOp(fd, bufs[k]))
  }

  function Reads(fd: nat, lens: seq<nat>): (ops: seq<Op>)
    ensures |ops| == |lens| && forall k :: 0 <= k < |lens| ==> ops[k] == ReadOp(fd, lens[k])
  {
    seq(|lens|, k requires 0 <= k < |lens| => ReadOp(fd, lens[k]))
  }

  function Concat(bufs: seq<seq<byte>>): seq<byte> {
    if bufs == [] then [] else Concat(bufs[..|bufs| - 1]) + bufs[|bufs| - 1]
  }

  function Total(lens: seq<nat>): nat {
    if lens == [] then 0 else Total(lens[..|lens| - 1]) + lens[|lens| - 1]
  }

  /** A part of a run is a run. */
  lemma PartOfRun(r: nat, ops: seq<Op>, answers: seq<Answer>, states: seq<State>, from: nat, to: nat)
    requires IsRun(r, ops, answers, states) && from <= to <= |ops|
    ensures IsRun(r, ops[from..to], answers[from..to], states[from..to + 1])
  {
    hide Next;
    forall i | 0 <= i < to - from
      ensures Next(r, states[from..to + 1][i], ops[from..to][i], answers[from..to][i], states[from..to + 1][i + 1])
    {
      assert Next(r, states[from + i], ops[from + i], answers[from + i], states[from + i + 1]);
    }
  }

  /** A buffer written at the position and laid down in full replaces as many bytes from there on, or what is left of
      the file, and the position moves behind it; no other file changes. */
  lemma WriteInPlace(r: nat, s: State, fd: nat, pos: nat, content: seq<byte>, data: seq<byte>, t: State)
    requires r > 0 && data != [] && OpenAt(s, fd, pos, content) && pos <= |content|
    requires Next(r, s, WriteOp(fd, data), WriteAnswer(Some(WriteOk)), t)
    requires pos % r + (|data| - 1) % r < r
    ensures var end := pos + |data|;
      OpenAt(t, fd, end, content[..pos] + data + if end < |content| then content[end..] else [])
    ensures |t.contents| == |s.contents| && t.open.Keys == s.open.Keys && t.tree == s.tree && t.kinds == s.kinds
    ensures forall i :: 0 <= i < |s.contents| && i != s.open[fd].inodeNo ==> t.contents[i] == s.contents[i]
    ensures forall g :: g in s.open && g != fd ==> t.open[g] == s.open[g]
  {
    WrittenInFull(r, pos, |data|);
    assert data[..|data|] == data;
    LaidOver(content, pos, data);
  }

  lemma LaidOver(content: seq<byte>, pos: nat, data: seq<byte>)
    requires pos <= |content|
    ensures var end := pos + |data|;
      Overlay(content, pos, |data|, data) == content[..pos] + data + if end < |content| then content[end..] else []
  {
  }

  lemma ConcatSnoc(bufs: seq<seq<byte>>)
    ensures Concat(bufs) == if bufs == [] then [] else Concat(bufs[..|bufs| - 1]) + bufs[|bufs| - 1]
  {
  }

  /** Buffers written one after the other to an empty file, each laid down in full, leave their concatenation, and the
      position at its end. */
  lemma {:induction false} WritesConcatenate(r: nat, fd: nat, bufs: seq<seq<byte>>, answers: seq<Answer>,
                                             states: seq<State>)
    requires r > 0 && IsRun(r, Writes(fd, bufs), answers, states) && OpenAt(states[0], fd, 0, [])
    requires forall k :: 0 <= k < |bufs| ==> bufs[k] != [] && answers[k] == WriteAnswer(Some(WriteOk))
    requires forall k :: 0 <= k < |bufs| ==> |Concat(bufs[..k])| % r + (|bufs[k]| - 1) % r < r
    ensures OpenAt(states[|bufs|], fd, |Concat(bufs)|, Concat(bufs))
    decreases |bufs|
  {
    hide Next, OpenAt, Concat;
    ConcatSnoc(bufs);
    if bufs != [] {
      var n := |bufs| - 1;
      PartOfRun(r, Writes(fd, bufs), answers, states, 0, n);
      assert Writes(fd, bufs)[0..n] == Writes(fd, bufs[..n]);
      assert forall k :: 0 <= k <= n ==> bufs[..n][..k] == bufs[..k];
      WritesConcatenate(r, fd, bufs[..n], answers[0..n], states[0..n + 1]);
      assert Next(r, states[n], WriteOp(fd, bufs[n]), WriteAnswer(Some(WriteOk)), states[n + 1]);
      var before := Concat(bufs[..n]);
      WriteInPlace(r, states[n], fd, |before|, before, bufs[n], states[n + 1]);
      assert before[..|before|] + bufs[n] + [] == before + bufs[n];
    }
  }

  /** A read that ends inside the file delivers what stands there. */
  lemma ReadInside(r: nat, s: State, fd: nat, pos: nat, content: seq<byte>, len: nat, answer: Answer, t: State)
    requires r > 0 && OpenAt(s, fd, pos, content) && pos + len <= |content|
    requires Next(r, s, ReadOp(fd, len), answer, t)
    ensures answer == ReadAnswer(content[pos..pos + len]) && OpenAt(t, fd, pos + len, content)
  {
    hide ReadLength;
    ReadExact(r, |content|, pos, len);
    assert answer.buf == content[pos..pos + len];
  }

  /** The answers are consecutive slices of the content, from `pos` on. */
  ghost predicate Slices(answers: seq<Answer>, content: seq<byte>, pos: nat, lens: seq<nat>) {
    |answers| == |lens| && forall k :: 0 <= k < |lens| ==>
        var start := pos + Total(lens[..k]);
        start + lens[k] <= |content| && answers[k] == ReadAnswer(content[start..start + lens[k]])
  }

  lemma TotalSnoc(lens: seq<nat>)
    requires lens != []
    ensures Total(lens) == Total(lens[..|lens| - 1]) + lens[|lens| - 1]
  {
  }

  lemma SlicesSnoc(answers: seq<Answer>, content: seq<byte>, pos: nat, lens: seq<nat>)
    requires |answers| == |lens| > 0 && pos + Total(lens) <= |content|
    requires var n := |lens| - 1;
      var start := pos + Total(lens[..n]);
      Slices(answers[..n], content, pos, lens[..n])
      && answers[n] == ReadAnswer(content[start..start + lens[n]])
    ensures Slices(answers, content, pos, lens)
  {
    hide Total;
    TotalSnoc(lens);
    var n := |lens| - 1;
    forall k | 0 <= k < n
      ensures var start := pos + Total(lens[..k]);
        start + lens[k] <= |content| && answers[k] == ReadAnswer(content[start..start + lens[k]])
    {
      assert lens[..n][..k] == lens[..k] && lens[..n][k] == lens[k] && answers[..n][k] == answers[k];
    }
  }

  lemma {:induction false} ReadsSlice(r: nat, fd: nat, pos: nat, content: seq<byte>, lens: seq<nat>,
                                      answers: seq<Answer>, states: seq<State>)
    requires r > 0 && IsRun(r, Reads(fd, lens), answers, states) && OpenAt(states[0], fd, pos, content)
    requires pos + Total(lens) <= |content|
    ensures Slices(answers, content, pos, lens)
    ensures OpenAt(states[|lens|], fd, pos + Total(lens), content)
    decreases |lens|
  {
    hide Next, OpenAt, Slices;
    if lens == [] {
      NoSlices(answers, content, pos);
    } else {
      var n := |lens| - 1;
      PartOfRun(r, Reads(fd, lens), answers, states, 0, n);
      assert Reads(fd, lens)[0..n] == Reads(fd, lens[..n]);
      ReadsSlice(r, fd, pos, content, lens[..n], answers[..n], states[..n + 1]);
      assert Next(r, states[n], ReadOp(fd, lens[n]), answers[n], states[n + 1]);
      ReadInside(r, states[n], fd, pos + Total(lens[..n]), content, lens[n], answers[n], states[n + 1]);
      SlicesSnoc(answers, content, pos, lens);
    }
  }

  lemma NoSlices(answers: seq<Answer>, content: seq<byte>, pos: nat)
    requires answers == []
    ensures Slices(answers, content, pos, [])
  {
  }

  /** Reads one after the other that end inside the file deliver consecutive slices of it. */
  lemma {:induction false} ReadsDeliverSlices(r: nat, fd: nat, pos: nat, content: seq<byte>, lens: seq<nat>,
                                              answers: seq<Answer>, states: seq<State>)
    requires r > 0 && IsRun(r, Reads(fd, lens), answers, states) && OpenAt(states[0], fd, pos, content)
    requires pos + Total(lens) <= |content|
    ensures forall k :: 0 <= k < |lens| ==>
              var start := pos + Total(lens[..k]);
              start + lens[k] <= |content| && answers[k] == ReadAnswer(content[start..start + lens[k]])
    ensures OpenAt(states[|lens|], fd, pos + Total(lens), content)
  {
    hide Total, IsRun, OpenAt;
    ReadsSlice(r, fd, pos, content, lens, answers, states);
  }

  /** A seek goes to the offset from the start of the file, from the position or from the end of the file: there, if
      that is inside the file, and otherwise to the end of the file that is nearer. */
  lemma SeekGoesTo(r: nat, s: State, fd: nat, pos: nat, content: seq<byte>, whence: int, offset: int, answer: Answer,
                   t: State)
    requires OpenAt(s, fd, pos, content) && Next(r, s, SeekOp(fd, whence, offset), answer, t)
    ensures whence == SEEK_SET && 0 <= offset <= |content| ==> OpenAt(t, fd, offset, content)
    ensures whence == SEEK_CUR && 0 <= pos + offset <= |content| ==> OpenAt(t, fd, pos + offset, content)
    ensures whence == SEEK_END && -|content| <= offset <= 0 ==> OpenAt(t, fd, |content| + offset, content)
    ensures whence == SEEK_SET && offset < 0 ==> OpenAt(t, fd, 0, content)
    ensures whence == SEEK_CUR && pos + offset < 0 ==> OpenAt(t, fd, 0, content)
    ensures whence == SEEK_END && offset < -|content| ==> OpenAt(t, fd, 0, content)
    ensures whence == SEEK_SET && offset > |content| ==> OpenAt(t, fd, |content|, content)
    ensures whence == SEEK_CUR && pos + offset > |content| ==> OpenAt(t, fd, |content|, content)
    ensures whence == SEEK_END && offset > 0 ==> OpenAt(t, fd, |content|, content)
    ensures whence != SEEK_SET && whence != SEEK_CUR && whence != SEEK_END ==> OpenAt(t, fd, pos, content)
  {
  }

  /** After a read that ends inside the file and a seek back by its length, the same read delivers the same again. */
  lemma ReadAgain(r: nat, fd: nat, pos: nat, content: seq<byte>, len: nat, answers: seq<Answer>, states: seq<State>)
    requires r > 0 && pos + len <= |content|
    requires IsRun(r, [ReadOp(fd, len), SeekOp(fd, SEEK_CUR, -(len as int)), ReadOp(fd, len)], answers, states)
    requires OpenAt(states[0], fd, pos, content)
    ensures answers[0] == answers[2] == ReadAnswer(content[pos..pos + len])
    ensures OpenAt(states[3], fd, pos + len, content)
  {
    hide Next, OpenAt;
    var ops := [ReadOp(fd, len), SeekOp(fd, SEEK_CUR, -(len as int)), ReadOp(fd, len)];
    assert Next(r, states[0], ops[0], answers[0], states[1]) && Next(r, states[1], ops[1], answers[1], states[2])
           && Next(r, states[2], ops[2], answers[2], states[3]);
    ReadInside(r, states[0], fd, pos, content, len, answers[0], states[1]);
    SeekGoesTo(r, states[1], fd, pos + len, content, SEEK_CUR, -(len as int), answers[1], states[2]);
    ReadInside(r, states[2], fd, pos, content, len, answers[2], states[3]);
  }

  /** After a seek from the end of the file, a read delivers its last bytes. */
  lemma ReadLast(r: nat, fd: nat, pos: nat, content: seq<byte>, len: nat, answers: seq<Answer>, states: seq<State>)
    requires r > 0 && len <= |content|
    requires IsRun(r, [SeekOp(fd, SEEK_END, -(len as int)), ReadOp(fd, len)], answers, states)
    requires OpenAt(states[0], fd, pos, content)
    ensures answers[1] == ReadAnswer(content[|content| - len..])
    ensures OpenAt(states[2], fd, |content|, content)
  {
    hide Next, OpenAt;
    var ops := [SeekOp(fd, SEEK_END, -(len as int)), ReadOp(fd, len)];
    assert Next(r, states[0], ops[0], answers[0], states[1]) && Next(r, states[1], ops[1], answers[1], states[2]);
    SeekGoesTo(r, states[0], fd, pos, content, SEEK_END, -(len as int), answers[0], states[1]);
    ReadInside(r, states[1], fd, |content| - len, content, len, answers[1], states[2]);
  }

  /** A buffer written and laid down in full is what a read delivers after a seek back by its length. */
  lemma WriteThenReadBack(r: nat, fd: nat, pos: nat, content: seq<byte>, data: seq<byte>, answers: seq<Answer>,
                          states: seq<State>)
    requires r > 0 && data != [] && pos <= |content| && pos % r + (|data| - 1) % r < r
    requires IsRun(r, [WriteOp(fd, data), SeekOp(fd, SEEK_CUR, -|data|), ReadOp(fd, |data|)], answers, states)
    requires OpenAt(states[0], fd, pos, content) && answers[0] == WriteAnswer(Some(WriteOk))
    ensures answers[2] == ReadAnswer(data)
  {
    hide Next, OpenAt;
    var ops := [WriteOp(fd, data), SeekOp(fd, SEEK_CUR, -|data|), ReadOp(fd, |data|)];
    assert Next(r, states[0], ops[0], answers[0], states[1]) && Next(r, states[1], ops[1], answers[1], states[2])
           && Next(r, states[2], ops[2], answers[2], states[3]);
    var end := pos + |data|;
    var written := content[..pos] + data + if end < |content| then content[end..] else [];
    WriteInPlace(r, states[0], fd, pos, content, data, states[1]);
    SeekGoesTo(r, states[1], fd, end, written, SEEK_CUR, -|data|, answers[1], states[2]);
    ReadInside(r, states[2], fd, pos, written, |data|, answers[2], states[3]);
    assert written[pos..end] == data;
  }

  /** Buffers written one after the other to an empty file, each laid down in full, are read back after a seek to the
      start as consecutive slices of their concatenation, however the reads cut it. */
  lemma WrittenIsRead(r: nat, fd: nat, bufs: seq<seq<byte>>, lens: seq<nat>, answers: seq<Answer>, states: seq<State>)
    requires r > 0
    requires IsRun(r, Writes(fd, bufs) + [SeekOp(fd, SEEK_SET, 0)] + Reads(fd, lens), answers, states)
    requires OpenAt(states[0], fd, 0, [])
    requires forall k :: 0 <= k < |bufs| ==> bufs[k] != [] && answers[k] == WriteAnswer(Some(WriteOk))
    requires forall k :: 0 <= k < |bufs| ==> |Concat(bufs[..k])| % r + (|bufs[k]| - 1) % r < r
    requires Total(lens) <= |Concat(bufs)|
    ensures Slices(answers[|bufs| + 1..], Concat(bufs), 0, lens)
    ensures OpenAt(states[|bufs| + 1 + |lens|], fd, Total(lens), Concat(bufs))
  {
    hide Next, OpenAt, Slices, Concat, Total;
    var n, ops := |bufs|, Writes(fd, bufs) + [SeekOp(fd, SEEK_SET, 0)] + Reads(fd, lens);
    var m := |ops|;
    PartOfRun(r, ops, answers, states, 0, n);
    assert ops[0..n] == Writes(fd, bufs);
    WritesConcatenate(r, fd, bufs, answers[0..n], states[0..n + 1]);
    assert Next(r, states[n], ops[n], answers[n], states[n + 1]);
    SeekGoesTo(r, states[n], fd, |Concat(bufs)|, Concat(bufs), SEEK_SET, 0, answers[n], states[n + 1]);
    PartOfRun(r, ops, answers, states, n + 1, m);
    assert ops[n + 1..m] == Reads(fd, lens);
    ReadsSlice(r, fd, 0, Concat(bufs), lens, answers[n + 1..m], states[n + 1..m + 1]);
    assert answers[n + 1..m] == answers[n + 1..];
  }
}
