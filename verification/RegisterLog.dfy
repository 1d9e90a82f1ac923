/**
  From register streams to tensor shapes and back: the ioctl shim finds registers in each task's
  command stream and prints one row per task; the tiling script reads the rows of the first
  submit and carries values forward within one op.
 */
module RegisterLog {
  import opened Arithmetic
  import opened LogText
  import opened Options

  // ----- Buffers and streams

  /** A buffer: its DMA range and, once mapped, its contents as 64-bit words. */
  datatype Buffer = Buffer(dma: nat, size: nat, words: Option<seq<nat>>)

  datatype Task = Task(op: nat, regcmd: nat, amount: nat)

  predicate Holds(b: Buffer, d: nat) {
    b.dma != 0 && b.dma <= d < b.dma + b.size
  }

  /** The ranges of distinct buffers do not overlap. */
  ghost predicate Disjoint(bufs: seq<Buffer>) {
    forall i, j, d: nat :: 0 <= i < j < |bufs| && Holds(bufs[i], d) ==> !Holds(bufs[j], d)
  }

  method FindByDma(bufs: seq<Buffer>, d: nat) returns (r: int)
    requires Disjoint(bufs)
    ensures r == -1 || 0 <= r < |bufs|
    ensures forall i :: 0 <= i < |bufs| ==> (Holds(bufs[i], d) <==> i == r)
  {
    for i := 0 to |bufs|
      invariant forall k :: 0 <= k < i ==> !Holds(bufs[k], d)
    {
      if bufs[i].dma != 0 && d >= bufs[i].dma && d < bufs[i].dma + bufs[i].size {
        return i;
      }
    }
    return -1;
  }

  /** A task's stream: the words from its address on, if some mapped buffer holds that address. */
  ghost predicate IsStream(bufs: seq<Buffer>, t: Task, s: Option<seq<nat>>) {
    match s
    case None => forall i :: 0 <= i < |bufs| && Holds(bufs[i], t.regcmd) ==> bufs[i].words == None
    case Some(words) =>
      exists i :: 0 <= i < |bufs| && Holds(bufs[i], t.regcmd) && bufs[i].words.Some?
        && FitsBuffer(bufs[i], t)
        && words == bufs[i].words.value[(t.regcmd - bufs[i].dma) / 8..][..t.amount + 4]
  }

  /** Streams are word-aligned and end inside their buffer. */
  predicate FitsBuffer(b: Buffer, t: Task)
    requires Holds(b, t.regcmd) && b.words.Some?
  {
    (t.regcmd - b.dma) % 8 == 0 && (t.regcmd - b.dma) / 8 + t.amount + 4 <= |b.words.value|
  }

  ghost predicate StreamsFit(bufs: seq<Buffer>, t: Task) {
    forall i :: 0 <= i < |bufs| && Holds(bufs[i], t.regcmd) && bufs[i].words.Some? ==> FitsBuffer(bufs[i], t)
  }

  function Offset(e: nat): nat { e % 0x1_0000 }

  function Value(e: nat): nat { e / 0x1_0000 % 0x1_0000_0000 }

  /** The value of the first write to a register. */
  function FirstWrite(words: seq<nat>, want: nat): Option<nat> {
    if words == [] then None
    else if Offset(words[0]) == want then Some(Value(words[0]))
    else FirstWrite(words[1..], want)
  }

  /** Word i is a write to the register, and no word before it is. */
  ghost predicate FirstAt(words: seq<nat>, want: nat, i: nat) {
    i < |words| && words[i] % 0x1_0000 == want && forall j :: 0 <= j < i ==> words[j] % 0x1_0000 != want
  }

  /** What is found is the value of the first write, and nothing is found exactly when there is none. */
  lemma {:induction false} FirstWriteIsFirst(words: seq<nat>, want: nat)
    ensures FirstWrite(words, want) == None <==> forall i :: 0 <= i < |words| ==> words[i] % 0x1_0000 != want
    ensures forall i: nat :: FirstAt(words, want, i) ==>
      FirstWrite(words, want) == Some(words[i] / 0x1_0000 % 0x1_0000_0000)
  {
    if words != [] && words[0] % 0x1_0000 != want {
      FirstWriteIsFirst(words[1..], want);
      assert forall i :: 0 < i < |words| ==> words[i] == words[1..][i - 1];
      forall i: nat | FirstAt(words, want, i)
        ensures FirstWrite(words, want) == Some(words[i] / 0x1_0000 % 0x1_0000_0000)
      {
        assert FirstAt(words[1..], want, i - 1);
      }
    }
  }

  /** A word is made of the register's offset, the value and a tag, from the lowest bit up. */
  lemma PartsOfWord(o: nat, v: nat, tag: nat)
    requires o < 0x1_0000 && v < 0x1_0000_0000
    ensures Offset(o + v * 0x1_0000 + tag * 0x1_0000_0000_0000) == o
    ensures Value(o + v * 0x1_0000 + tag * 0x1_0000_0000_0000) == v
  {
    var e := o + v * 0x1_0000 + tag * 0x1_0000_0000_0000;
    DivBy(e, v + tag * 0x1_0000_0000, o, 0x1_0000);
    DivBy(v + tag * 0x1_0000_0000, tag, v, 0x1_0000_0000);
  }

  function Register(stream: Option<seq<nat>>, want: nat): Option<nat> {
    if stream == None then None else FirstWrite(stream.value, want)
  }

  /** The buffer is mapped and holds the task's address, and from there on word i is the first write to the register. */
  ghost predicate WrittenAt(b: Buffer, t: Task, want: nat, i: nat) {
    && b.dma != 0 && b.dma <= t.regcmd < b.dma + b.size && b.words.Some?
    && (t.regcmd - b.dma) / 8 + t.amount + 4 <= |b.words.value|
    && FirstAt(b.words.value[(t.regcmd - b.dma) / 8..][..t.amount + 4], want, i)
  }

  /** In terms of the buffers alone. */
  ghost predicate FoundIn(bufs: seq<Buffer>, t: Task, want: nat, r: Option<nat>) {
    && (r == None <==> forall b, i: nat :: 0 <= b < |bufs| ==> !WrittenAt(bufs[b], t, want, i))
    && (forall b, i: nat :: 0 <= b < |bufs| && WrittenAt(bufs[b], t, want, i) ==>
          r == Some(bufs[b].words.value[(t.regcmd - bufs[b].dma) / 8 + i] / 0x1_0000 % 0x1_0000_0000))
  }

  lemma {:induction false} FirstExists(words: seq<nat>, want: nat, k: nat) returns (i: nat)
    requires k < |words| && words[k] % 0x1_0000 == want
    ensures FirstAt(words, want, i)
    decreases k
  {
    if j :| 0 <= j < k && words[j] % 0x1_0000 == want {
      i := FirstExists(words, want, j);
    } else {
      i := k;
    }
  }

  lemma OneBuffer(bufs: seq<Buffer>, t: Task, want: nat, ri: nat, b: nat, i: nat)
    requires Disjoint(bufs) && ri < |bufs| && Holds(bufs[ri], t.regcmd)
    requires b < |bufs| && WrittenAt(bufs[b], t, want, i)
    ensures b == ri
  {
    assert Holds(bufs[b], t.regcmd);
  }

  lemma FoundInMapped(bufs: seq<Buffer>, t: Task, want: nat, ri: nat)
    requires Disjoint(bufs) && ri < |bufs| && Holds(bufs[ri], t.regcmd)
    requires bufs[ri].words.Some? && FitsBuffer(bufs[ri], t)
    ensures var words := bufs[ri].words.value[(t.regcmd - bufs[ri].dma) / 8..][..t.amount + 4];
      FoundIn(bufs, t, want, FirstWrite(words, want))
  {
    var words := bufs[ri].words.value[(t.regcmd - bufs[ri].dma) / 8..][..t.amount + 4];
    FirstWriteIsFirst(words, want);
    forall b: nat, i: nat | b < |bufs| && WrittenAt(bufs[b], t, want, i)
      ensures FirstWrite(words, want)
        == Some(bufs[b].words.value[(t.regcmd - bufs[b].dma) / 8 + i] / 0x1_0000 % 0x1_0000_0000)
    {
      OneBuffer(bufs, t, want, ri, b, i);
    }
    if k :| 0 <= k < |words| && words[k] % 0x1_0000 == want {
      var i := FirstExists(words, want, k);
      assert WrittenAt(bufs[ri], t, want, i);
    }
  }

  lemma FoundInNone(bufs: seq<Buffer>, t: Task, want: nat)
    requires forall b :: 0 <= b < |bufs| && Holds(bufs[b], t.regcmd) ==> bufs[b].words == None
    ensures FoundIn(bufs, t, want, None)
  {
    forall b: nat, i: nat | b < |bufs| ensures !WrittenAt(bufs[b], t, want, i) {
      assert Holds(bufs[b], t.regcmd) ==> bufs[b].words == None;
    }
  }

  /** The stream is the one whose first write the buffers hold. */
  lemma FoundInStream(bufs: seq<Buffer>, t: Task, want: nat, stream: Option<seq<nat>>)
    requires Disjoint(bufs) && StreamsFit(bufs, t) && IsStream(bufs, t, stream)
    ensures FoundIn(bufs, t, want, Register(stream, want))
  {
    if stream == None {
      FoundInNone(bufs, t, want);
    } else {
      var ri :| 0 <= ri < |bufs| && Holds(bufs[ri], t.regcmd) && bufs[ri].words.Some? && FitsBuffer(bufs[ri], t)
        && stream.value == bufs[ri].words.value[(t.regcmd - bufs[ri].dma) / 8..][..t.amount + 4];
      FoundInMapped(bufs, t, want, ri);
    }
  }

  /** The loop over the first n words. */
  method Search(e: seq<nat>, n: nat, want: nat) returns (r: Option<nat>)
    requires n <= |e|
    ensures r == FirstWrite(e[..n], want)
  {
    FirstWriteIsFirst(e[..n], want);
    for i := 0 to n
      invariant forall j :: 0 <= j < i ==> e[..n][j] % 0x1_0000 != want
    {
      if Offset(e[i]) == want {
        assert FirstAt(e[..n], want, i);
        return Some(Value(e[i]));
      }
    }
    return None;
  }

  method RegcmdFind(bufs: seq<Buffer>, t: Task, want: nat, ghost stream: Option<seq<nat>>) returns (r: Option<nat>)
    requires Disjoint(bufs) && StreamsFit(bufs, t) && IsStream(bufs, t, stream)
    ensures r == Register(stream, want)
    ensures FoundIn(bufs, t, want, r)
  {
    FoundInStream(bufs, t, want, stream);
    var ri := FindByDma(bufs, t.regcmd);
    if ri < 0 {
      return None;
    }
    if bufs[ri].words == None {
      return None;
    }
    var e := bufs[ri].words.value[(t.regcmd - bufs[ri].dma) / 8..];
    assert stream == Some(e[..t.amount + 4]);
    r := Search(e, t.amount + 4, want);
  }

  // ----- The printer

  /** What one row shows: for each register, its value if the stream wrote it. */
  datatype Shown = Shown(op: nat, size0: Option<nat>, size1: Option<nat>, con2: Option<nat>,
                         con3: Option<nat>, weight2: Option<nat>, pad0: Option<nat>)

  function ShownFor(op: nat, stream: Option<seq<nat>>): Shown {
    Shown(op, Register(stream, 0x1020), Register(stream, 0x1024), Register(stream, 0x1010),
          Register(stream, 0x1014), Register(stream, 0x1038), Register(stream, 0x1068))
  }

  /** A bit field as a column, or a dash. */
  function Field(reg: Option<nat>, shift: nat, width: nat): string
    requires shift > 0 && width > 0
  {
    if reg == None then "-" else Decimal(reg.value / shift % width)
  }

  function Tokens(task: nat, s: Shown): (toks: seq<string>)
    ensures |toks| == 13
  {
    [Decimal(task), Decimal(s.op),
     Field(s.size0, 0x1_0000, 0x800), Field(s.size0, 1, 0x800),
     Field(s.size1, 1, 0x1_0000), Field(s.size1, 0x1_0000, 0x4000),
     Field(s.con2, 0x10, 0x400),
     Field(s.weight2, 0x100_0000, 0x20), Field(s.weight2, 0x1_0000, 0x20),
     Field(s.con3, 1, 8), Field(s.con3, 8, 8),
     Field(s.pad0, 0x10, 0x10), Field(s.pad0, 1, 0x10)]
  }

  const HEADER: seq<string> := ["task", "op", "W", "H", "ch", "chreal", "grains", "k_w", "k_h", "sx", "sy", "pl", "pt"]

  const DASHES := "    ----"

  /** The C conversion to a signed 32-bit integer. */
  function ToInt32(x: nat): int {
    var r := x % 0x1_0000_0000;
    if r < 0x8000_0000 then r else r - 0x1_0000_0000
  }

  /** The op of the last task shown, as the printer keeps it. */
  function PrevOp(shown: seq<Shown>): int {
    if shown == [] then -1 else ToInt32(shown[|shown| - 1].op)
  }

  /** Whether the next task's op calls for a line of dashes. */
  function NewOp(prevOp: int, op: nat): bool {
    ToInt32(op) != prevOp && prevOp >= 0
  }

  /** A line of the log, before it is formatted. */
  datatype LogLine = Titles | Dashes | TaskRow(task: nat, s: Shown)

  function Format(l: LogLine): string {
    match l
    case Titles => Row(HEADER)
    case Dashes => DASHES
    case TaskRow(task, s) => Row(Tokens(task, s))
  }

  function FormatAll(lines: seq<LogLine>): (r: seq<string>)
    ensures |r| == |lines|
  {
    if lines == [] then [] else FormatAll(lines[..|lines| - 1]) + [Format(lines[|lines| - 1])]
  }

  /** The titles and the lines of the tasks from `start` on. */
  function Lines(start: nat, shown: seq<Shown>): seq<LogLine> {
    if shown == [] then [Titles]
    else
      var k := |shown| - 1;
      Printed(Lines(start, shown[..k]), NewOp(PrevOp(shown[..k]), shown[k].op), start + k, shown[k])
  }

  /** What is printed for one task: a line of dashes where the op changes, and its row. */
  function Printed(lines: seq<LogLine>, dash: bool, task: nat, s: Shown): seq<LogLine> {
    lines + (if dash then [Dashes] else []) + [TaskRow(task, s)]
  }

  ghost predicate StreamsOf(bufs: seq<Buffer>, tasks: seq<Task>, streams: seq<Option<seq<nat>>>) {
    && |streams| == |tasks|
    && forall i :: 0 <= i < |tasks| ==> StreamsFit(bufs, tasks[i]) && IsStream(bufs, tasks[i], streams[i])
  }

  function AllShown(tasks: seq<Task>, streams: seq<Option<seq<nat>>>): (r: seq<Shown>)
    requires |streams| == |tasks|
    ensures |r| == |tasks|
  {
    if tasks == [] then []
    else
      var k := |tasks| - 1;
      AllShown(tasks[..k], streams[..k]) + [ShownFor(tasks[k].op, streams[k])]
  }

  /** The six registers of one task. */
  method Inspect(bufs: seq<Buffer>, tk: Task, ghost stream: Option<seq<nat>>) returns (s: Shown)
    requires Disjoint(bufs) && StreamsFit(bufs, tk) && IsStream(bufs, tk, stream)
    ensures s == ShownFor(tk.op, stream)
  {
    var size0 := RegcmdFind(bufs, tk, 0x1020, stream);
    var size1 := RegcmdFind(bufs, tk, 0x1024, stream);
    var con2 := RegcmdFind(bufs, tk, 0x1010, stream);
    var con3 := RegcmdFind(bufs, tk, 0x1014, stream);
    var weight2 := RegcmdFind(bufs, tk, 0x1038, stream);
    var pad0 := RegcmdFind(bufs, tk, 0x1068, stream);
    s := Shown(tk.op, size0, size1, con2, con3, weight2, pad0);
  }

  lemma LinesStep(start: nat, shown: seq<Shown>, s: Shown)
    ensures Lines(start, shown + [s])
      == Printed(Lines(start, shown), NewOp(PrevOp(shown), s.op), start + |shown|, s)
    ensures PrevOp(shown + [s]) == ToInt32(s.op)
  {
    assert (shown + [s])[..|shown|] == shown;
  }

  lemma AllShownStep(tasks: seq<Task>, streams: seq<Option<seq<nat>>>, k: nat)
    requires |streams| == |tasks| && k < |tasks|
    ensures AllShown(tasks[..k + 1], streams[..k + 1])
      == AllShown(tasks[..k], streams[..k]) + [ShownFor(tasks[k].op, streams[k])]
  {
    assert tasks[..k + 1][..k] == tasks[..k] && streams[..k + 1][..k] == streams[..k];
  }

  /** The lines of one task. */
  method PrintTask(lines: seq<LogLine>, prevOp: int, task: nat, s: Shown) returns (r: seq<LogLine>)
    ensures r == Printed(lines, NewOp(prevOp, s.op), task, s)
  {
    r := lines;
    if ToInt32(s.op) != prevOp && prevOp >= 0 {
      r := r + [Dashes];
    }
    r := r + [TaskRow(task, s)];
  }

  method DumpShapes(bufs: seq<Buffer>, start: nat, tasks: seq<Task>, ghost streams: seq<Option<seq<nat>>>)
    returns (lines: seq<LogLine>)
    requires Disjoint(bufs) && StreamsOf(bufs, tasks, streams)
    ensures lines == Lines(start, AllShown(tasks, streams))
  {
    lines := [Titles];
    var prevOp := -1;
    ghost var shown: seq<Shown> := [];
    for k := 0 to |tasks|
      invariant shown == AllShown(tasks[..k], streams[..k])
      invariant lines == Lines(start, shown)
      invariant prevOp == PrevOp(shown)
    {
      var s := Inspect(bufs, tasks[k], streams[k]);
      AllShownStep(tasks, streams, k);
      LinesStep(start, shown, s);
      lines := PrintTask(lines, prevOp, start + k, s);
      prevOp := ToInt32(s.op);
      shown := shown + [s];
    }
    assert tasks[..|tasks|] == tasks && streams[..|tasks|] == streams;
  }

  // ----- What the columns and the dashes mean

  /** The stream's first write to the register carries the value. */
  ghost predicate Writes(words: seq<nat>, reg: nat, v: nat) {
    exists i: nat :: FirstAt(words, reg, i) && words[i] / 0x1_0000 % 0x1_0000_0000 == v
  }

  lemma WrittenField(words: seq<nat>, reg: nat, high: nat, field: nat, low: nat, shift: nat, width: nat)
    requires shift > 0 && width > 0 && field < width && low < shift
    requires Writes(words, reg, (high * width + field) * shift + low)
    ensures Field(Register(Some(words), reg), shift, width) == Decimal(field)
  {
    FirstWriteIsFirst(words, reg);
    var n := high * width + field;
    DivBy(n * shift + low, n, low, shift);
    DivBy(n, high, field, width);
  }

  lemma SizeFields(words: seq<nat>, w: nat, h: nat, junk1: nat, junk0: nat)
    requires w < 0x800 && h < 0x800 && junk0 < 0x20
    requires Writes(words, 0x1020, junk1 * 0x800_0000 + w * 0x1_0000 + junk0 * 0x800 + h)
    ensures Field(Register(Some(words), 0x1020), 0x1_0000, 0x800) == Decimal(w)
    ensures Field(Register(Some(words), 0x1020), 1, 0x800) == Decimal(h)
  {
    WrittenField(words, 0x1020, junk1, w, junk0 * 0x800 + h, 0x1_0000, 0x800);
    WrittenField(words, 0x1020, junk1 * 0x1_0000 + w * 0x20 + junk0, h, 0, 1, 0x800);
  }

  /** Register 0x1020: [26:16] is the width and [10:0] the height, whatever the other bits (junk) hold. */
  lemma SizeColumns(task: nat, op: nat, words: seq<nat>, w: nat, h: nat, junk1: nat, junk0: nat)
    requires w < 0x800 && h < 0x800 && junk0 < 0x20
    requires Writes(words, 0x1020, junk1 * 0x800_0000 + w * 0x1_0000 + junk0 * 0x800 + h)
    ensures Tokens(task, ShownFor(op, Some(words)))[2..4] == [Decimal(w), Decimal(h)]
  {
    SizeFields(words, w, h, junk1, junk0);
  }

  lemma ChannelFields(words: seq<nat>, ch: nat, chreal: nat, junk: nat)
    requires ch < 0x1_0000 && chreal < 0x4000
    requires Writes(words, 0x1024, junk * 0x4000_0000 + chreal * 0x1_0000 + ch)
    ensures Field(Register(Some(words), 0x1024), 1, 0x1_0000) == Decimal(ch)
    ensures Field(Register(Some(words), 0x1024), 0x1_0000, 0x4000) == Decimal(chreal)
  {
    WrittenField(words, 0x1024, junk * 0x4000 + chreal, ch, 0, 1, 0x1_0000);
    WrittenField(words, 0x1024, junk, chreal, ch, 0x1_0000, 0x4000);
  }

  /** Register 0x1024: [29:16] is the real number of channels and [15:0] the number of channels. */
  lemma ChannelColumns(task: nat, op: nat, words: seq<nat>, ch: nat, chreal: nat, junk: nat)
    requires ch < 0x1_0000 && chreal < 0x4000
    requires Writes(words, 0x1024, junk * 0x4000_0000 + chreal * 0x1_0000 + ch)
    ensures Tokens(task, ShownFor(op, Some(words)))[4..6] == [Decimal(ch), Decimal(chreal)]
  {
    ChannelFields(words, ch, chreal, junk);
  }

  /** Register 0x1010: [13:4] is the number of grains. */
  lemma GrainColumn(task: nat, op: nat, words: seq<nat>, grains: nat, junk1: nat, junk0: nat)
    requires grains < 0x400 && junk0 < 0x10 && Writes(words, 0x1010, junk1 * 0x4000 + grains * 0x10 + junk0)
    ensures Tokens(task, ShownFor(op, Some(words)))[6] == Decimal(grains)
  {
    WrittenField(words, 0x1010, junk1, grains, junk0, 0x10, 0x400);
  }

  lemma KernelFields(words: seq<nat>, kw: nat, kh: nat, junk2: nat, junk1: nat, junk0: nat)
    requires kw < 0x20 && kh < 0x20 && junk1 < 8 && junk0 < 0x1_0000
    requires Writes(words, 0x1038, junk2 * 0x2000_0000 + kw * 0x100_0000 + junk1 * 0x20_0000 + kh * 0x1_0000 + junk0)
    ensures Field(Register(Some(words), 0x1038), 0x100_0000, 0x20) == Decimal(kw)
    ensures Field(Register(Some(words), 0x1038), 0x1_0000, 0x20) == Decimal(kh)
  {
    WrittenField(words, 0x1038, junk2, kw, junk1 * 0x20_0000 + kh * 0x1_0000 + junk0, 0x100_0000, 0x20);
    WrittenField(words, 0x1038, junk2 * 0x100 + kw * 8 + junk1, kh, junk0, 0x1_0000, 0x20);
  }

  /** Register 0x1038: [28:24] is k_w and [20:16] is k_h. */
  lemma KernelColumns(task: nat, op: nat, words: seq<nat>, kw: nat, kh: nat, junk2: nat, junk1: nat, junk0: nat)
    requires kw < 0x20 && kh < 0x20 && junk1 < 8 && junk0 < 0x1_0000
    requires Writes(words, 0x1038, junk2 * 0x2000_0000 + kw * 0x100_0000 + junk1 * 0x20_0000 + kh * 0x1_0000 + junk0)
    ensures Tokens(task, ShownFor(op, Some(words)))[7..9] == [Decimal(kw), Decimal(kh)]
  {
    KernelFields(words, kw, kh, junk2, junk1, junk0);
  }

  lemma StrideFields(words: seq<nat>, sx: nat, sy: nat, junk: nat)
    requires sx < 8 && sy < 8 && Writes(words, 0x1014, junk * 0x40 + sy * 8 + sx)
    ensures Field(Register(Some(words), 0x1014), 1, 8) == Decimal(sx)
    ensures Field(Register(Some(words), 0x1014), 8, 8) == Decimal(sy)
  {
    WrittenField(words, 0x1014, junk * 8 + sy, sx, 0, 1, 8);
    WrittenField(words, 0x1014, junk, sy, sx, 8, 8);
  }

  /** Register 0x1014: [2:0] is s_x and [5:3] is s_y. */
  lemma StrideColumns(task: nat, op: nat, words: seq<nat>, sx: nat, sy: nat, junk: nat)
    requires sx < 8 && sy < 8 && Writes(words, 0x1014, junk * 0x40 + sy * 8 + sx)
    ensures Tokens(task, ShownFor(op, Some(words)))[9..11] == [Decimal(sx), Decimal(sy)]
  {
    StrideFields(words, sx, sy, junk);
  }

  lemma PadFields(words: seq<nat>, pl: nat, pt: nat, junk: nat)
    requires pl < 0x10 && pt < 0x10 && Writes(words, 0x1068, junk * 0x100 + pl * 0x10 + pt)
    ensures Field(Register(Some(words), 0x1068), 0x10, 0x10) == Decimal(pl)
    ensures Field(Register(Some(words), 0x1068), 1, 0x10) == Decimal(pt)
  {
    WrittenField(words, 0x1068, junk, pl, pt, 0x10, 0x10);
    WrittenField(words, 0x1068, junk * 0x10 + pl, pt, 0, 1, 0x10);
  }

  /** Register 0x1068: [7:4] is the padding on the left and [3:0] that on top. */
  lemma PadColumns(task: nat, op: nat, words: seq<nat>, pl: nat, pt: nat, junk: nat)
    requires pl < 0x10 && pt < 0x10 && Writes(words, 0x1068, junk * 0x100 + pl * 0x10 + pt)
    ensures Tokens(task, ShownFor(op, Some(words)))[11..] == [Decimal(pl), Decimal(pt)]
  {
    PadFields(words, pl, pt, junk);
  }

  /** A register that is not written, or whose stream is not mapped, leaves dashes in its columns, and only there. */
  lemma UnwrittenColumns(task: nat, op: nat, stream: Option<seq<nat>>, reg: nat)
    requires stream.Some? ==> forall i :: 0 <= i < |stream.value| ==> stream.value[i] % 0x1_0000 != reg
    ensures var toks := Tokens(task, ShownFor(op, stream));
      && (reg == 0x1020 ==> toks[2] == "-" && toks[3] == "-")
      && (reg == 0x1024 ==> toks[4] == "-" && toks[5] == "-")
      && (reg == 0x1010 ==> toks[6] == "-")
      && (reg == 0x1038 ==> toks[7] == "-" && toks[8] == "-")
      && (reg == 0x1014 ==> toks[9] == "-" && toks[10] == "-")
      && (reg == 0x1068 ==> toks[11] == "-" && toks[12] == "-")
  {
    if stream.Some? {
      FirstWriteIsFirst(stream.value, reg);
    }
  }

  /** How many of the tasks after the first, up to task k, have another op than the one before. */
  function Changes(shown: seq<Shown>, k: nat): nat
    requires k < |shown|
  {
    if k == 0 then 0 else Changes(shown, k - 1) + (if shown[k].op != shown[k - 1].op then 1 else 0)
  }

  ghost predicate SmallOps(shown: seq<Shown>) {
    forall i :: 0 <= i < |shown| ==> shown[i].op < 0x8000_0000
  }

  lemma {:induction false} ChangesOfPrefix(shown: seq<Shown>, n: nat, k: nat)
    requires k < n <= |shown|
    ensures Changes(shown[..n], k) == Changes(shown, k)
  {
    if k > 0 {
      ChangesOfPrefix(shown, n, k - 1);
    }
  }

  /** For op numbers that fit a signed integer, a new op is another op. */
  lemma NewOpIsChange(prev: nat, op: nat)
    requires prev < 0x8000_0000 && op < 0x8000_0000
    ensures NewOp(ToInt32(prev), op) <==> op != prev
  {
  }

  lemma LastLine(start: nat, shown: seq<Shown>)
    requires shown != [] && SmallOps(shown)
    ensures var n := |shown| - 1;
      Lines(start, shown) == Printed(Lines(start, shown[..n]), n > 0 && shown[n].op != shown[n - 1].op,
                                     start + n, shown[n])
  {
    var n := |shown| - 1;
    if n > 0 {
      assert PrevOp(shown[..n]) == ToInt32(shown[n - 1].op);
      NewOpIsChange(shown[n - 1].op, shown[n].op);
    }
  }

  /** Where task k's row stands: after the titles, the earlier rows, and a line of dashes for each change of op. */
  ghost predicate RowStands(lines: seq<LogLine>, start: nat, shown: seq<Shown>, k: nat)
    requires k < |shown|
  {
    && 1 + k + Changes(shown, k) < |lines|
    && lines[1 + k + Changes(shown, k)] == TaskRow(start + k, shown[k])
    && (k > 0 && shown[k].op != shown[k - 1].op ==> lines[k + Changes(shown, k)] == Dashes)
  }

  lemma {:induction false} LinesLength(start: nat, shown: seq<Shown>)
    requires SmallOps(shown)
    ensures |Lines(start, shown)| == if shown == [] then 1 else 1 + |shown| + Changes(shown, |shown| - 1)
    ensures Lines(start, shown)[0] == Titles
  {
    if shown != [] {
      var n := |shown| - 1;
      LinesLength(start, shown[..n]);
      LastLine(start, shown);
      if n > 0 {
        ChangesOfPrefix(shown, n, n - 1);
      }
    }
  }

  lemma RowStillStands(lines: seq<LogLine>, more: seq<LogLine>, start: nat, shown: seq<Shown>, k: nat)
    requires k < |shown| - 1 && RowStands(lines, start, shown[..|shown| - 1], k)
    ensures RowStands(lines + more, start, shown, k)
  {
    ChangesOfPrefix(shown, |shown| - 1, k);
  }

  /** Every task's row stands there, right below a line of dashes when its op is new, and nothing else is printed. */
  lemma {:induction false} DashesMarkNewOps(start: nat, shown: seq<Shown>, k: nat)
    requires SmallOps(shown) && k < |shown|
    ensures |Lines(start, shown)| == 1 + |shown| + Changes(shown, |shown| - 1)
    ensures RowStands(Lines(start, shown), start, shown, k)
  {
    var n := |shown| - 1;
    LinesLength(start, shown);
    LastLine(start, shown);
    if k < n {
      DashesMarkNewOps(start, shown[..n], k);
      var before := Lines(start, shown[..n]);
      assert Lines(start, shown) == before + Lines(start, shown)[|before|..];
      RowStillStands(before, Lines(start, shown)[|before|..], start, shown, k);
    } else {
      LinesLength(start, shown[..n]);
      if n > 0 {
        ChangesOfPrefix(shown, n, n - 1);
      }
    }
  }

  // ----- The parser

  /** The four columns the script keeps. */
  datatype Last = Last(w: Option<nat>, h: Option<nat>, kh: Option<nat>, sy: Option<nat>)

  const NOTHING := Last(None, None, None, None)

  datatype Tile = Tile(task: nat, op: nat, w: nat, h: Option<nat>, kh: nat, sy: Option<nat>)

  datatype Parser = Parser(inFirst: bool, submits: nat, op: Option<nat>, last: Last, rows: seq<Tile>)

  const MARK := "SUBMIT #"

  function Contains(line: string, mark: string): bool {
    mark <= line || (line != "" && Contains(line[1..], mark))
  }

  /** Whether a column can be read as a number or as the dash for "not set". */
  predicate Readable(raw: string) {
    raw == "-" || AllDigits(raw)
  }

  function Update(kept: Option<nat>, raw: string): Option<nat>
    requires Readable(raw)
  {
    if raw == "-" then kept else Some(Number(raw))
  }

  function Carry(last: Last, toks: seq<string>): Last
    requires |toks| == 13 && Readable(toks[2]) && Readable(toks[3]) && Readable(toks[8]) && Readable(toks[10])
  {
    Last(Update(last.w, toks[2]), Update(last.h, toks[3]), Update(last.kh, toks[8]), Update(last.sy, toks[10]))
  }

  /** One line; None is the exception a column that is no number raises. */
  function ReadLine(p: Parser, limit: int, line: string): Option<Parser> {
    if Contains(line, MARK) then
      Some(p.(submits := p.submits + 1, inFirst := p.submits == 0, op := None, last := NOTHING))
    else if !p.inFirst then Some(p)
    else
      match MatchRow(line)
      case None => Some(p)
      case Some(toks) => ReadRow(p, limit, toks)
  }

  function ReadRow(p: Parser, limit: int, toks: seq<string>): Option<Parser>
    requires |toks| == 13 && AllDigits(toks[0]) && AllDigits(toks[1])
  {
    var task, op := Number(toks[0]), Number(toks[1]);
    if task >= limit then Some(p)
    else if !(Readable(toks[2]) && Readable(toks[3]) && Readable(toks[8]) && Readable(toks[10])) then None
    else
      var last := Carry(if Some(op) != p.op then NOTHING else p.last, toks);
      Some(Keep(p, task, op, last))
  }

  /** The state after a row below the limit, with the values now known. */
  function Keep(p: Parser, task: nat, op: nat, last: Last): Parser {
    var q := p.(op := Some(op), last := last);
    if last.w == None || last.kh == None then q
    else q.(rows := p.rows + [Tile(task, op, last.w.value, last.h, last.kh.value, last.sy)])
  }

  const START := Parser(false, 0, None, NOTHING, [])

  function ReadLines(p: Option<Parser>, limit: int, lines: seq<string>): Option<Parser> {
    if lines == [] || p == None then p
    else
      var before := ReadLines(p, limit, lines[..|lines| - 1]);
      if before == None then None else ReadLine(before.value, limit, lines[|lines| - 1])
  }

  /** `load`: the rows of the first submit, or None for the exception. */
  method Load(lines: seq<string>, limit: int) returns (rows: Option<seq<Tile>>)
    ensures var p := ReadLines(Some(START), limit, lines);
      rows == if p == None then None else Some(p.value.rows)
  {
    var inFirst, submits := false, 0;
    var op: Option<nat> := None;
    var last := NOTHING;
    var out: seq<Tile> := [];
    for i := 0 to |lines|
      invariant ReadLines(Some(START), limit, lines[..i]) == Some(Parser(inFirst, submits, op, last, out))
    {
      ghost var p := Parser(inFirst, submits, op, last, out);
      var line := lines[i];
      assert lines[..i + 1][..i] == lines[..i];
      if Contains(line, MARK) {
        submits := submits + 1;
        inFirst := submits == 1;
        op, last := None, NOTHING;
        continue;
      }
      if !inFirst {
        continue;
      }
      var m := MatchRow(line);
      if m == None {
        continue;
      }
      var toks := m.value;
      var t, o := Number(toks[0]), Number(toks[1]);
      if t >= limit {
        continue;
      }
      if !(Readable(toks[2]) && Readable(toks[3]) && Readable(toks[8]) && Readable(toks[10])) {
        ReadLinesStops(Some(START), limit, lines, i + 1);
        return None;
      }
      if Some(o) != op {
        op, last := Some(o), NOTHING;
      }
      last := Carry(last, toks);
      assert ReadLine(p, limit, line) == Some(Keep(p, t, o, last));
      if last.w == None || last.kh == None {
        continue;
      }
      out := out + [Tile(t, o, last.w.value, last.h, last.kh.value, last.sy)];
    }
    assert lines[..|lines|] == lines;
    rows := Some(out);
  }

  lemma {:induction false} ReadLinesStops(p: Option<Parser>, limit: int, lines: seq<string>, k: nat)
    requires k <= |lines| && ReadLines(p, limit, lines[..k]) == None
    ensures ReadLines(p, limit, lines) == None
  {
    if k == |lines| {
      assert lines[..k] == lines;
    } else {
      assert lines[..|lines| - 1][..k] == lines[..k];
      ReadLinesStops(p, limit, lines[..|lines| - 1], k);
    }
  }

  lemma {:induction false} ReadLinesConcat(p: Option<Parser>, limit: int, a: seq<string>, b: seq<string>)
    ensures ReadLines(p, limit, a + b) == ReadLines(ReadLines(p, limit, a), limit, b)
  {
    if b == [] {
      assert a + b == a;
    } else {
      ReadLinesConcat(p, limit, a, b[..|b| - 1]);
      assert (a + b)[..|a + b| - 1] == a + b[..|b| - 1];
      if p == None {
      } else if a == [] {
        assert a + b == b;
      }
    }
  }

  // ----- What the rows mean

  datatype Key = W | H | KH | SY

  /** The value a row shows for a key, as a bit field of the register the stream wrote. */
  function Shows(s: Shown, key: Key): Option<nat> {
    match key
    case W => if s.size0 == None then None else Some(s.size0.value / 0x1_0000 % 0x800)
    case H => if s.size0 == None then None else Some(s.size0.value % 0x800)
    case KH => if s.weight2 == None then None else Some(s.weight2.value / 0x1_0000 % 0x20)
    case SY => if s.con3 == None then None else Some(s.con3.value / 8 % 8)
  }

  function Get(last: Last, key: Key): Option<nat> {
    match key case W => last.w case H => last.h case KH => last.kh case SY => last.sy
  }

  function Or(a: Option<nat>, b: Option<nat>): Option<nat> {
    if a == None then b else a
  }

  /** What is known after the last of these tasks: its own values, else those of its run so far. */
  function LastOf(shown: seq<Shown>): Last {
    if shown == [] then NOTHING
    else
      var k := |shown| - 1;
      Completed(shown[k], if k > 0 && shown[k - 1].op == shown[k].op then LastOf(shown[..k]) else NOTHING)
  }

  /** Task j belongs to the run of one op that ends with the last task. */
  ghost predicate InRun(shown: seq<Shown>, j: nat) {
    j < |shown| && forall i :: j <= i < |shown| ==> shown[i].op == shown[|shown| - 1].op
  }

  /** Task j is the latest of its run to show the key. */
  ghost predicate LatestAt(shown: seq<Shown>, key: Key, j: nat) {
    InRun(shown, j) && Shows(shown[j], key).Some?
    && forall i :: j < i < |shown| ==> Shows(shown[i], key) == None
  }

  lemma RunReachesBack(shown: seq<Shown>, j: nat)
    requires InRun(shown, j)
    ensures j + 1 < |shown| ==> shown[|shown| - 2].op == shown[|shown| - 1].op
  {
  }

  ghost predicate IsLatest(shown: seq<Shown>, key: Key, x: Option<nat>) {
    && (x.Some? ==> exists j: nat :: LatestAt(shown, key, j) && x == Shows(shown[j], key))
    && (x == None ==> forall j: nat :: InRun(shown, j) ==> Shows(shown[j], key) == None)
  }

  /** A task of the same op that shows nothing leaves the latest value as it was. */
  lemma StillLatest(before: seq<Shown>, s: Shown, key: Key, x: Option<nat>)
    requires before != [] && before[|before| - 1].op == s.op && Shows(s, key) == None && IsLatest(before, key, x)
    ensures IsLatest(before + [s], key, x)
  {
    var shown := before + [s];
    if x.Some? {
      var j: nat :| LatestAt(before, key, j) && x == Shows(before[j], key);
      assert LatestAt(shown, key, j);
    } else {
      forall j: nat | InRun(shown, j) ensures Shows(shown[j], key) == None {
        if j < |before| {
          assert forall i :: j <= i < |before| ==> before[i] == shown[i];
          assert InRun(before, j);
        }
      }
    }
  }

  lemma OwnIsLatest(shown: seq<Shown>, key: Key)
    requires shown != [] && Shows(shown[|shown| - 1], key).Some?
    ensures IsLatest(shown, key, Shows(shown[|shown| - 1], key))
  {
    assert LatestAt(shown, key, |shown| - 1);
  }

  lemma NewRunShowsNothing(shown: seq<Shown>, key: Key)
    requires shown != [] && Shows(shown[|shown| - 1], key) == None
    requires |shown| > 1 ==> shown[|shown| - 2].op != shown[|shown| - 1].op
    ensures IsLatest(shown, key, None)
  {
    forall j: nat | InRun(shown, j) ensures Shows(shown[j], key) == None {
      RunReachesBack(shown, j);
    }
  }

  lemma LastOfStep(shown: seq<Shown>, key: Key)
    requires shown != []
    ensures var k := |shown| - 1;
      Get(LastOf(shown), key)
      == if Shows(shown[k], key).Some? then Shows(shown[k], key)
         else if k > 0 && shown[k - 1].op == shown[k].op then Get(LastOf(shown[..k]), key)
         else None
  {
  }

  /** The carried value is the latest one shown within the run, and there is none exactly when none was. */
  lemma {:induction false} LastOfIsLatest(shown: seq<Shown>, key: Key)
    ensures IsLatest(shown, key, Get(LastOf(shown), key))
  {
    if shown != [] {
      var k := |shown| - 1;
      var before := shown[..k];
      LastOfStep(shown, key);
      if Shows(shown[k], key).Some? {
        OwnIsLatest(shown, key);
      } else if k > 0 && shown[k - 1].op == shown[k].op {
        assert before + [shown[k]] == shown;
        LastOfIsLatest(before, key);
        StillLatest(before, shown[k], key, Get(LastOf(before), key));
      } else {
        NewRunShowsNothing(shown, key);
      }
    }
  }

  /** The rows the script should keep: one per task below the limit whose W and k_h are known. */
  function Expected(start: nat, shown: seq<Shown>, limit: int): seq<Tile> {
    if shown == [] then []
    else
      var k := |shown| - 1;
      var before := Expected(start, shown[..k], limit);
      var last := LastOf(shown);
      if start + k >= limit || last.w == None || last.kh == None then before
      else before + [Tile(start + k, shown[k].op, last.w.value, last.h, last.kh.value, last.sy)]
  }

  // ----- Reading one row back

  lemma {:induction false} NoMark(s: string)
    requires '#' !in s
    ensures !Contains(s, MARK)
  {
    if s != "" {
      assert MARK[7] == '#';
      NoMark(s[1..]);
    }
  }

  lemma {:induction false} NoMarkInColumns(toks: seq<string>, i: nat)
    requires forall k :: 0 <= k < |toks| ==> '#' !in toks[k]
    ensures '#' !in Columns(toks, i)
    decreases |toks| - i
  {
    if i < |toks| {
      NoMarkInColumns(toks, i + 1);
      assert '#' !in Pad(toks[i], Width(i));
    }
  }

  lemma FieldFacts(reg: Option<nat>, shift: nat, width: nat)
    requires shift > 0 && width > 0
    ensures var f := Field(reg, shift, width);
      && Token(f) && '#' !in f && Readable(f)
      && forall kept :: Update(kept, f) == if reg == None then kept else Some(reg.value / shift % width)
  {
    if reg != None {
      var n := reg.value / shift % width;
      DecimalToken(n);
      assert Decimal(n)[0] != '-';
    }
  }

  lemma DecimalToken(n: nat)
    ensures Token(Decimal(n)) && '#' !in Decimal(n) && AllDigits(Decimal(n)) && Number(Decimal(n)) == n
  {
    NumberOfDecimal(n);
  }

  lemma TokensFacts(task: nat, s: Shown)
    ensures forall i :: 0 <= i < 13 ==> Token(Tokens(task, s)[i]) && '#' !in Tokens(task, s)[i]
  {
    DecimalToken(task);
    DecimalToken(s.op);
    FieldFacts(s.size0, 0x1_0000, 0x800);
    FieldFacts(s.size0, 1, 0x800);
    FieldFacts(s.size1, 1, 0x1_0000);
    FieldFacts(s.size1, 0x1_0000, 0x4000);
    FieldFacts(s.con2, 0x10, 0x400);
    FieldFacts(s.weight2, 0x100_0000, 0x20);
    FieldFacts(s.weight2, 0x1_0000, 0x20);
    FieldFacts(s.con3, 1, 8);
    FieldFacts(s.con3, 8, 8);
    FieldFacts(s.pad0, 0x10, 0x10);
    FieldFacts(s.pad0, 1, 0x10);
  }

  lemma RowOfTokens(toks: seq<string>)
    requires |toks| == 13 && AllDigits(toks[0]) && AllDigits(toks[1])
    requires forall i :: 0 <= i < 13 ==> Token(toks[i]) && '#' !in toks[i]
    ensures !Contains(Row(toks), MARK) && MatchRow(Row(toks)) == Some(toks)
  {
    MatchOfRow(toks);
    NoMarkInColumns(toks, 0);
    NoMark(Row(toks));
  }

  /** The parser takes a printed row apart into exactly what was printed. */
  lemma RowReadBack(task: nat, s: Shown)
    ensures var line := Format(TaskRow(task, s));
      !Contains(line, MARK) && MatchRow(line) == Some(Tokens(task, s))
  {
    TokensFacts(task, s);
    DecimalToken(task);
    DecimalToken(s.op);
    RowOfTokens(Tokens(task, s));
  }

  /** A row's own values, completed by those carried so far. */
  function Completed(s: Shown, last: Last): Last {
    Last(Or(Shows(s, W), last.w), Or(Shows(s, H), last.h), Or(Shows(s, KH), last.kh), Or(Shows(s, SY), last.sy))
  }

  /** One line, in terms of the values it was made from and not of its text. */
  function ReadItem(p: Parser, limit: int, l: LogLine): Parser {
    match l
    case TaskRow(task, s) =>
      if task >= limit then p
      else Keep(p, task, s.op, Completed(s, if Some(s.op) != p.op then NOTHING else p.last))
    case _ => p
  }

  function ReadItems(p: Parser, limit: int, lines: seq<LogLine>): Parser {
    if lines == [] then p else ReadItem(ReadItems(p, limit, lines[..|lines| - 1]), limit, lines[|lines| - 1])
  }

  lemma ReadMatched(p: Parser, limit: int, line: string, toks: seq<string>)
    requires p.inFirst && !Contains(line, MARK) && MatchRow(line) == Some(toks)
    ensures |toks| == 13 && AllDigits(toks[0]) && AllDigits(toks[1])
    ensures ReadLine(p, limit, line) == ReadRow(p, limit, toks)
  {
  }

  lemma ReadRowShown(p: Parser, limit: int, toks: seq<string>, task: nat, s: Shown)
    requires |toks| == 13 && AllDigits(toks[0]) && AllDigits(toks[1])
    requires Number(toks[0]) == task && Number(toks[1]) == s.op
    requires Readable(toks[2]) && Readable(toks[3]) && Readable(toks[8]) && Readable(toks[10])
    requires forall last :: Carry(last, toks) == Completed(s, last)
    ensures ReadRow(p, limit, toks) == Some(ReadItem(p, limit, TaskRow(task, s)))
  {
  }

  lemma NumbersOfRow(task: nat, s: Shown, toks: seq<string>)
    requires toks == Tokens(task, s)
    ensures AllDigits(toks[0]) && AllDigits(toks[1]) && Number(toks[0]) == task && Number(toks[1]) == s.op
  {
    DecimalToken(task);
    DecimalToken(s.op);
  }

  /** What the script does with a printed row, in terms of the values and not of the text. */
  lemma ReadPrintedRow(p: Parser, limit: int, task: nat, s: Shown)
    requires p.inFirst
    ensures ReadLine(p, limit, Format(TaskRow(task, s))) == Some(ReadItem(p, limit, TaskRow(task, s)))
  {
    var toks := Tokens(task, s);
    RowReadBack(task, s);
    ReadMatched(p, limit, Format(TaskRow(task, s)), toks);
    NumbersOfRow(task, s, toks);
    CarryShown(toks, task, s);
    ReadRowShown(p, limit, toks, task, s);
  }

  lemma CarryShown(toks: seq<string>, task: nat, s: Shown)
    requires toks == Tokens(task, s)
    ensures Readable(toks[2]) && Readable(toks[3]) && Readable(toks[8]) && Readable(toks[10])
    ensures forall last :: Carry(last, toks) == Completed(s, last)
  {
    FieldFacts(s.size0, 0x1_0000, 0x800);
    FieldFacts(s.size0, 1, 0x800);
    FieldFacts(s.weight2, 0x1_0000, 0x20);
    FieldFacts(s.con3, 8, 8);
  }

  lemma TitlesAreSkipped(h: seq<string>)
    requires h == HEADER
    ensures !Contains(Row(h), MARK) && MatchRow(Row(h)) == None
  {
    TitlesAreTokens(h);
    assert h[0][0] == 't';
    MatchOfRow(h);
    NoMarkInColumns(h, 0);
    NoMark(Row(h));
  }

  lemma TitlesAreTokens(h: seq<string>)
    requires h == HEADER
    ensures |h| == 13 && forall i :: 0 <= i < 13 ==> Token(h[i]) && '#' !in h[i]
  {
  }

  lemma ReadOtherLine(p: Parser, limit: int, l: LogLine)
    requires l == Titles || l == Dashes
    ensures ReadLine(p, limit, Format(l)) == Some(p)
  {
    if l == Titles {
      TitlesAreSkipped(HEADER);
    } else {
      NoMark(DASHES);
    }
  }

  lemma {:induction false} StaysInFirst(p: Parser, limit: int, lines: seq<LogLine>)
    ensures ReadItems(p, limit, lines).inFirst == p.inFirst && ReadItems(p, limit, lines).submits == p.submits
  {
    if lines != [] {
      StaysInFirst(p, limit, lines[..|lines| - 1]);
    }
  }

  /** Formatting and parsing lose nothing: the text behaves as the values do. */
  lemma {:induction false} TextIsTransparent(p: Parser, limit: int, lines: seq<LogLine>)
    requires p.inFirst
    ensures ReadLines(Some(p), limit, FormatAll(lines)) == Some(ReadItems(p, limit, lines))
  {
    if lines != [] {
      var k := |lines| - 1;
      TextIsTransparent(p, limit, lines[..k]);
      StaysInFirst(p, limit, lines[..k]);
      ReadFormatted(ReadItems(p, limit, lines[..k]), limit, lines[k]);
      ReadOneMore(p, limit, FormatAll(lines[..k]), Format(lines[k]));
    }
  }

  lemma ReadOneMore(p: Parser, limit: int, lines: seq<string>, line: string)
    requires ReadLines(Some(p), limit, lines).Some?
    ensures ReadLines(Some(p), limit, lines + [line]) == ReadLine(ReadLines(Some(p), limit, lines).value, limit, line)
  {
    assert (lines + [line])[..|lines|] == lines;
  }

  lemma ReadFormatted(p: Parser, limit: int, l: LogLine)
    requires p.inFirst
    ensures ReadLine(p, limit, Format(l)) == Some(ReadItem(p, limit, l))
  {
    if l.TaskRow? {
      ReadPrintedRow(p, limit, l.task, l.s);
    } else {
      ReadOtherLine(p, limit, l);
    }
  }

  /** Finding the mark in a line is finding it as a substring. */
  lemma {:induction false} ContainsIsSubstring(line: string, mark: string)
    ensures Contains(line, mark) <==> exists i :: 0 <= i <= |line| && mark <= line[i..]
  {
    if mark <= line {
      assert line[0..] == line;
    } else if line != "" {
      ContainsIsSubstring(line[1..], mark);
      if i :| 0 <= i <= |line[1..]| && mark <= line[1..][i..] {
        assert line[i + 1..] == line[1..][i..];
      }
      if i :| 0 <= i <= |line| && mark <= line[i..] {
        assert line[0..] == line;
        assert line[i..] == line[1..][i - 1..];
      }
    }
  }

  // ----- Reading the whole table back

  /** How many of the tasks lie below the limit. */
  function Below(start: nat, n: nat, limit: int): nat {
    if limit <= start then 0 else if start + n <= limit then n else limit - start
  }

  /** The parser's state after the rows of these tasks. */
  function ParsedState(p: Parser, start: nat, shown: seq<Shown>, limit: int): Parser {
    var m := Below(start, |shown|, limit);
    p.(op := if m == 0 then p.op else Some(shown[m - 1].op),
       last := if m == 0 then p.last else LastOf(shown[..m]),
       rows := p.rows + Expected(start, shown, limit))
  }

  lemma ReadOneRow(p: Parser, start: nat, shown: seq<Shown>, limit: int)
    requires shown != [] && p.op == None && p.last == NOTHING
    ensures var k := |shown| - 1;
      ReadItem(ParsedState(p, start, shown[..k], limit), limit, TaskRow(start + k, shown[k]))
      == ParsedState(p, start, shown, limit)
  {
    var k := |shown| - 1;
    if start + k < limit {
      assert shown[..k + 1] == shown && shown[..k][..k] == shown[..k];
    } else {
      var m := Below(start, k, limit);
      assert shown[..k][..m] == shown[..m];
    }
  }

  lemma {:induction false} ReadTable(p: Parser, start: nat, shown: seq<Shown>, limit: int)
    requires p.op == None && p.last == NOTHING
    ensures ReadItems(p, limit, Lines(start, shown)) == ParsedState(p, start, shown, limit)
  {
    if shown == [] {
      ReadNext(p, limit, [], Titles);
      assert [] + [Titles] == [Titles];
    } else {
      var k := |shown| - 1;
      var lines := Lines(start, shown[..k]);
      var row := TaskRow(start + k, shown[k]);
      ReadTable(p, start, shown[..k], limit);
      ReadOneRow(p, start, shown, limit);
      ReadNext(p, limit, lines, Dashes);
      ReadNext(p, limit, lines + [Dashes], row);
      ReadNext(p, limit, lines, row);
      assert lines + [] == lines;
    }
  }

  lemma ReadNext(p: Parser, limit: int, lines: seq<LogLine>, l: LogLine)
    ensures ReadItems(p, limit, lines + [l]) == ReadItem(ReadItems(p, limit, lines), limit, l)
  {
    assert (lines + [l])[..|lines|] == lines;
  }

  // ----- The whole log

  ghost predicate NoSubmit(lines: seq<string>) {
    forall i :: 0 <= i < |lines| ==> !Contains(lines[i], MARK)
  }

  ghost predicate NoRows(lines: seq<string>) {
    forall i :: 0 <= i < |lines| ==> MatchRow(lines[i]) == None
  }

  /** Anything before the first submit, its table among other lines, then anything from the second on. */
  ghost predicate IsLog(log: seq<string>, before: seq<string>, mark: string, head: seq<string>,
                        table: seq<string>, tail: seq<string>, later: seq<string>)
  {
    && log == before + ([mark] + (head + (table + (tail + later))))
    && NoSubmit(before) && Contains(mark, MARK)
    && NoSubmit(head) && NoRows(head) && NoSubmit(tail) && NoRows(tail)
    && (later != [] ==> Contains(later[0], MARK))
  }

  lemma {:induction false} SkipQuiet(p: Parser, limit: int, lines: seq<string>)
    requires NoSubmit(lines) && (!p.inFirst || NoRows(lines))
    ensures ReadLines(Some(p), limit, lines) == Some(p)
  {
    if lines != [] {
      SkipQuiet(p, limit, lines[..|lines| - 1]);
    }
  }

  lemma {:induction false} LaterIsIgnored(p: Parser, limit: int, lines: seq<string>)
    requires p.submits >= 1 && (lines != [] ==> Contains(lines[0], MARK))
    ensures ReadLines(Some(p), limit, lines).Some? && ReadLines(Some(p), limit, lines).value.rows == p.rows
    ensures lines != [] ==>
      ReadLines(Some(p), limit, lines).value.submits >= 2 && !ReadLines(Some(p), limit, lines).value.inFirst
  {
    if lines != [] {
      LaterIsIgnored(p, limit, lines[..|lines| - 1]);
    }
  }

  const FIRST := Parser(true, 1, None, NOTHING, [])

  /** Only the table of the first submit matters. */
  lemma OnlyTheTableMatters(log: seq<string>, before: seq<string>, mark: string, head: seq<string>, table: seq<string>,
                            tail: seq<string>, later: seq<string>, limit: int, p: Parser)
    requires IsLog(log, before, mark, head, table, tail, later)
    requires ReadLines(Some(FIRST), limit, table) == Some(p) && p.submits == 1
    ensures ReadLines(Some(START), limit, log).Some? && ReadLines(Some(START), limit, log).value.rows == p.rows
  {
    SkipQuiet(START, limit, before);
    ReadLinesConcat(Some(START), limit, before, [mark] + (head + (table + (tail + later))));
    ReadLinesConcat(Some(START), limit, [mark], head + (table + (tail + later)));
    MarkStartsFirst(limit, mark);
    ReadLinesConcat(Some(FIRST), limit, head, table + (tail + later));
    SkipQuiet(FIRST, limit, head);
    ReadLinesConcat(Some(FIRST), limit, table, tail + later);
    ReadLinesConcat(Some(p), limit, tail, later);
    SkipQuiet(p, limit, tail);
    LaterIsIgnored(p, limit, later);
  }

  lemma MarkStartsFirst(limit: int, mark: string)
    requires Contains(mark, MARK)
    ensures ReadLines(Some(START), limit, [mark]) == Some(FIRST)
  {
    assert [mark][..0] == [];
  }

  /**
    Printing, then parsing and folding, for every log and every list of tasks in its first submit:
    the script ends without an exception and keeps, per task below the limit, the latest values
    shown within its run, leaving out exactly the tasks whose W or k_h is still unset.
   */
  lemma LoadOfDump(log: seq<string>, before: seq<string>, mark: string, head: seq<string>, tail: seq<string>,
                   later: seq<string>, start: nat, shown: seq<Shown>, limit: int)
    requires IsLog(log, before, mark, head, FormatAll(Lines(start, shown)), tail, later)
    ensures ReadLines(Some(START), limit, log).Some?
    ensures ReadLines(Some(START), limit, log).value.rows == Expected(start, shown, limit)
  {
    TextIsTransparent(FIRST, limit, Lines(start, shown));
    ReadTable(FIRST, start, shown, limit);
    OnlyTheTableMatters(log, before, mark, head, FormatAll(Lines(start, shown)), tail, later, limit,
                        ParsedState(FIRST, start, shown, limit));
  }

  ghost predicate Listed(rows: seq<Tile>, task: nat) {
    exists i :: 0 <= i < |rows| && rows[i].task == task
  }

  /** Whether the script keeps the last of these tasks. */
  predicate Kept(start: nat, shown: seq<Shown>, limit: int)
    requires shown != []
  {
    start + |shown| - 1 < limit && LastOf(shown).w.Some? && LastOf(shown).kh.Some?
  }

  lemma {:induction false} RowsStayBelow(start: nat, shown: seq<Shown>, limit: int)
    ensures !Listed(Expected(start, shown, limit), start + |shown|)
    ensures forall r :: r in Expected(start, shown, limit) ==> r.task < start + |shown|
  {
    if shown != [] {
      RowsStayBelow(start, shown[..|shown| - 1], limit);
    }
  }

  lemma ListedInLonger(rows: seq<Tile>, r: Tile, task: nat)
    ensures Listed(rows + [r], task) <==> Listed(rows, task) || r.task == task
  {
    assert (rows + [r])[|rows|] == r;
    if Listed(rows, task) {
      var i :| 0 <= i < |rows| && rows[i].task == task;
      assert (rows + [r])[i] == rows[i];
    }
  }

  lemma ListedStep(start: nat, shown: seq<Shown>, limit: int, task: nat)
    requires shown != []
    ensures Listed(Expected(start, shown, limit), task)
      <==> (Listed(Expected(start, shown[..|shown| - 1], limit), task)
            || (task == start + |shown| - 1 && Kept(start, shown, limit)))
  {
    if Kept(start, shown, limit) {
      var before := Expected(start, shown[..|shown| - 1], limit);
      ListedInLonger(before, Expected(start, shown, limit)[|before|], task);
    }
  }

  /** The tasks the script leaves out, and no others, are those at or past the limit or still unset. */
  lemma {:induction false} ExactlyTheKnownTasks(start: nat, shown: seq<Shown>, limit: int, k: nat)
    requires k < |shown|
    ensures Listed(Expected(start, shown, limit), start + k)
      <==> start + k < limit && LastOf(shown[..k + 1]).w.Some? && LastOf(shown[..k + 1]).kh.Some?
  {
    var n := |shown| - 1;
    ListedStep(start, shown, limit, start + k);
    if k < n {
      assert shown[..n][..k + 1] == shown[..k + 1];
      ExactlyTheKnownTasks(start, shown[..n], limit, k);
    } else {
      assert shown[..k + 1] == shown;
      RowsStayBelow(start, shown[..n], limit);
    }
  }

  /** A kept tile holds, for its task's run of one op, the values shown latest. */
  ghost predicate TileFits(start: nat, shown: seq<Shown>, t: Tile) {
    && start <= t.task < start + |shown|
    && var k := t.task - start;
      && t.op == shown[k].op
      && IsLatest(shown[..k + 1], W, Some(t.w)) && IsLatest(shown[..k + 1], H, t.h)
      && IsLatest(shown[..k + 1], KH, Some(t.kh)) && IsLatest(shown[..k + 1], SY, t.sy)
  }

  lemma LatestTileFits(start: nat, shown: seq<Shown>, limit: int)
    requires shown != [] && Kept(start, shown, limit)
    ensures TileFits(start, shown, Expected(start, shown, limit)[|Expected(start, shown, limit)| - 1])
  {
    assert shown[..|shown|] == shown;
    LastOfIsLatest(shown, W);
    LastOfIsLatest(shown, H);
    LastOfIsLatest(shown, KH);
    LastOfIsLatest(shown, SY);
  }

  lemma EarlierTileFits(start: nat, shown: seq<Shown>, t: Tile)
    requires shown != [] && TileFits(start, shown[..|shown| - 1], t)
    ensures TileFits(start, shown, t)
  {
    var k := t.task - start;
    assert shown[..|shown| - 1][..k + 1] == shown[..k + 1];
  }

  /** Every tile of the result holds the latest W, H, k_h and s_y of its task's run, and tasks come in order. */
  lemma {:induction false} TilesAreLatest(start: nat, shown: seq<Shown>, limit: int, i: nat)
    requires i < |Expected(start, shown, limit)|
    ensures TileFits(start, shown, Expected(start, shown, limit)[i])
    ensures i > 0 ==> Expected(start, shown, limit)[i - 1].task < Expected(start, shown, limit)[i].task
  {
    var n := |shown| - 1;
    var before := Expected(start, shown[..n], limit);
    if i < |before| {
      TilesAreLatest(start, shown[..n], limit, i);
      EarlierTileFits(start, shown, before[i]);
    } else {
      LatestTileFits(start, shown, limit);
      RowsStayBelow(start, shown[..n], limit);
    }
  }
}
