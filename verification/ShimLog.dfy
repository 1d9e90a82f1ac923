/**
  Everything else the ioctl shim writes to its log: the lines about buffers and mappings, the
  lines of a submit around its table, the physical-page listing and the closing summary.  None of
  them is taken for a row or for the start of a submit, so the script sees the table alone.
 */
module ShimLog {
  import opened LogText
  import opened Options
  import opened RegisterLog

  // ----- Texts that cannot disturb the script

  /** A text without the last character of the mark. */
  type Clean = s: string | '#' !in s

  /** How a line may begin that the regular expression cannot match. */
  predicate NoRowStart(s: string) {
    || (|s| > 0 && !IsSpace(s[0]))
    || (|s| > 2 && IsSpace(s[2]))
    || (|s| > 3 && !IsSpace(s[2]) && !IsSpace(s[3]) && !(IsDigit(s[2]) && IsDigit(s[3])))
  }

  type Opening = s: string | '#' !in s && NoRowStart(s) witness "x"

  /** A line that is empty, or has such a beginning. */
  datatype Line = Empty | Line(start: Opening, rest: Clean)

  function Written(l: Line): string {
    if l == Empty then "" else l.start + l.rest
  }

  lemma NoRowStartIsNoRow(start: string, rest: string)
    requires NoRowStart(start)
    ensures MatchRow(start + rest) == None
  {
    var line := start + rest;
    assert forall i :: 0 <= i < |start| ==> line[i] == start[i];
    if |line| >= 3 && !IsSpace(line[2]) && |start| > 3 {
      var body := line[2..];
      var k := TokenLength(body);
      assert body[0] == line[2] && body[1] == line[3];
      if !IsSpace(line[3]) {
        assert k >= 2;
        assert Split(body)[0] == body[..k];
        assert body[..k][0] == line[2] && body[..k][1] == line[3];
      }
    }
  }

  /** No such line is taken for a row or for the start of a submit. */
  lemma LineIsQuiet(l: Line)
    ensures !Contains(Written(l), MARK) && MatchRow(Written(l)) == None
  {
    NoMark(Written(l));
    if l != Empty {
      NoRowStartIsNoRow(l.start, l.rest);
    }
  }

  // ----- Numbers

  function HexDigit(d: nat): char
    requires d < 16
  {
    "0123456789abcdef"[d]
  }

  function Hex(n: nat): Clean {
    if n < 16 then [HexDigit(n)] else Hex(n / 16) + [HexDigit(n % 16)]
  }

  /** A hexadecimal number with leading zeros up to the width. */
  function HexPad(n: nat, width: nat): Clean {
    if |Hex(n)| >= width then Hex(n) else seq(width - |Hex(n)|, _ => '0') + Hex(n)
  }

  function Dec(n: nat): Clean {
    DecimalToken(n);
    Decimal(n)
  }

  function Signed(x: int): Clean {
    if x < 0 then "-" + Dec(-x) else Dec(x)
  }

  function Column(s: Clean, width: int): Clean {
    Pad(s, width)
  }

  function Blanks(n: int): Clean {
    Spaces(n)
  }

  function HexBytes(bytes: seq<nat>): Clean {
    if bytes == [] then "" else HexBytes(bytes[..|bytes| - 1]) + HexPad(bytes[|bytes| - 1], 2) + " "
  }

  /** One more labelled value at the end of a line. */
  function With(line: Clean, name: Clean, value: Clean): Clean {
    line + name + value
  }

  // ----- The lines

  /** One line each; the numbers are whatever the driver and the program passed. */
  datatype Chatter =
    // a submit, around its table
    | Blank
    | SubmitFlags(flags: nat, start: nat, number: nat, coreMask: nat, fence: int)
    | SubmitObject(obj: nat, base: nat, domain: int)
    | Subcore(index: nat, start: nat, number: nat)
    | NoTaskBuffer
    | TaskBufferUnmapped
    | TaskBuffer(va: nat, dma: nat, size: nat)
    | RawTask(task: nat, op: nat, amount: nat, offset: nat, regcmd: nat, mask: nat)
    | RegcmdUnknown
    | RegcmdUnmapped
    | RegcmdBuffer(va: nat, dma: nat, offset: nat)
    | RawWord(bytes: seq<nat>, word: nat, offset: nat, val: nat, tag: nat)
    | LegendTitle
    | LegendSizes
    | LegendConv
    | LegendWeights
    // the physical pages
    | PagemapFailed(reason: Clean)
    | PhysicalTitle
    | PhysicalBuffer(handle: nat, dma: nat, size: nat)
    | NoPage(k: nat, iova: nat)
    | PageAt(k: nat, iova: nat, pa: nat, jump: bool)
    // buffers and mappings
    | MemCreate(handle: nat, size: nat, flags: nat, obj: nat, dma: nat)
    | MemMap(handle: nat, offset: nat)
    | Mapped(handle: nat, va: nat, offset: nat)
    // the summary at exit
    | SummaryTitle
    | SummaryHead
    | SummaryRow(handle: nat, size: nat, flags: nat, names: Clean, dma: nat, offset: nat, va: nat)
    | SummaryFoot

  function FlagsLine(flags: nat, start: nat, number: nat, coreMask: nat, fence: int): Line {
    Line("flags=", With(With(SubmitRange(flags, start, number), " core_mask=0x", Hex(coreMask)),
                        " fence_fd=", Signed(fence)))
  }

  function SubmitRange(flags: nat, start: nat, number: nat): Clean {
    With(With("0x" + Hex(flags), " task_start=", Dec(start)), " task_number=", Dec(number))
  }

  function ObjectLine(obj: nat, base: nat, domain: int): Line {
    Line("task_obj_addr=", With(TaskAddresses(obj, base), "  iommu_domain_id=", Signed(domain)))
  }

  function TaskAddresses(obj: nat, base: nat): Clean {
    With("0x" + Hex(obj), "  task_base_addr=0x", Hex(base))
  }

  function SubcoreLine(index: nat, start: nat, number: nat): Line {
    Line("  subcore[", Dec(index) + "]: start=" + Dec(start) + " number=" + Dec(number))
  }

  function TaskBufferLine(va: nat, dma: nat, size: nat): Line {
    Line("  task buffer: ", "va=0x" + Hex(va) + " dma=0x" + Hex(dma) + " size=" + Dec(size))
  }

  function RawTaskLine(task: nat, op: nat, amount: nat, offset: nat, regcmd: nat, mask: nat): Line {
    Line("  --- task[", With(With("", RawTaskConfig(task, op, amount, offset), RawTaskAddress(regcmd)),
                             " int_mask=0x", Hex(mask)))
  }

  function RawTaskConfig(task: nat, op: nat, amount: nat, offset: nat): Clean {
    With(With(With(Dec(task), "] op_idx=", Dec(op)), " regcfg_amount=", Dec(amount)),
         " regcfg_offset=", Dec(offset))
  }

  function RawTaskAddress(regcmd: nat): Clean {
    " regcmd_addr=0x" + Hex(regcmd)
  }

  function RegcmdLine(va: nat, dma: nat, offset: nat): Line {
    Line("      regcmd buffer ", "va=0x" + Hex(va) + " dma=0x" + Hex(dma) + " off=0x" + Hex(offset))
  }

  function RawWordLine(bytes: seq<nat>, word: nat, offset: nat, val: nat, tag: nat): Line {
    Line("      raw=", With(With(With(With(HexBytes(bytes), " |u64=0x", HexPad(word, 16)),
                                      "| off=0x", HexPad(offset, 4)),
                                 " val=0x", HexPad(val, 8)),
                            " tag=0x", HexPad(tag, 4)))
  }

  function NoTaskBufferLine(): Line {
    Line("  !! ", "找不到 task buffer")
  }

  function TaskBufferUnmappedLine(): Line {
    Line("  !! ", "task buffer 沒 mmap")
  }

  function RegcmdUnknownLine(): Line {
    Line("      (", With("regcmd ", "不在已知 ", "buffer 內)"))
  }

  function RegcmdUnmappedLine(): Line {
    Line("      (", With("regcmd ", "buffer ", "沒 mmap)"))
  }

  function LegendTitleLine(): Line {
    Line("  === ", LegendTitleText())
  }

  function LegendTitleText(): Clean {
    With("每個 task 的卷積參數", "（從 CNA 暫存器還原）", "===")
  }

  function LegendSizesLine(): Line {
    Line("  0x1020 ", LegendSizes0() + LegendSizes1())
  }

  function LegendSizes0(): Clean {
    With("data_size0:", " [26:16]=width", " [10:0]=height   ")
  }

  function LegendSizes1(): Clean {
    With("0x1024 data_size1:", " [29:16]=ch_real", " [15:0]=ch")
  }

  function LegendConvLine(): Line {
    Line("  0x1010 ", LegendConv2() + LegendConv3())
  }

  function LegendConv2(): Clean {
    With("conv_con2 :", " [13:4]=feature_grains", "          ")
  }

  function LegendConv3(): Clean {
    With("0x1014 conv_con3 :", " [5:3]=y_stride", " [2:0]=x_stride")
  }

  function LegendWeightsLine(): Line {
    Line("  0x1038 ", LegendWeights2() + LegendPad0())
  }

  function LegendWeights2(): Clean {
    With("wt_size2  :", " [28:24]=k_w", " [20:16]=k_h        ")
  }

  function LegendPad0(): Clean {
    With("0x1068 pad_con0 :", " [7:4]=pad_left", " [3:0]=pad_top")
  }

  function PagemapLine(reason: Clean): Line {
    Line("（開 ",
         With(With("/proc/self/pagemap", " 失敗：", reason), " —— 要 root ", "才看得到實體位址）"))
  }

  function PhysicalTitleLine(): Line {
    Line("=== ", PhysicalTitleText())
  }

  function PhysicalTitleText(): Clean {
    With("實體頁面真的連續嗎？", "（每塊取前 8 頁）", "===")
  }

  function PhysicalLine(handle: nat, dma: nat, size: nat): Line {
    Line("h=", Dec(handle) + "  IOVA=0x" + Hex(dma) + "  size=" + Dec(size))
  }

  function NoPageLine(k: nat, iova: nat): Line {
    Line("   +", PageAddress(k, iova) + "(尚未配實體頁)")
  }

  function PageAddress(k: nat, iova: nat): Clean {
    With(Column(Dec(k), -2), " IOVA=0x", HexPad(iova, 10)) + " -> "
  }

  function PageLine(k: nat, iova: nat, pa: nat, jump: bool): Line {
    Line("   +", With(PageAddress(k, iova), "實體 0x", HexPad(pa, 10))
                 + (if jump then "   ← 實體不連續" else ""))
  }

  function CreateLine(handle: nat, size: nat, flags: nat, obj: nat, dma: nat): Line {
    Line("MEM_CREATE ", With(With(CreatedBuffer(handle, size, flags), " obj=0x", Hex(obj)), " dma=0x", Hex(dma)))
  }

  function CreatedBuffer(handle: nat, size: nat, flags: nat): Clean {
    With(With("h=" + Dec(handle), " size=", Dec(size)), " flags=0x", Hex(flags))
  }

  function MapLine(handle: nat, offset: nat): Line {
    Line("MEM_MAP    ", "h=" + Dec(handle) + " offset=0x" + Hex(offset))
  }

  function MappedLine(handle: nat, va: nat, offset: nat): Line {
    Line("  -> mmap ", With(With("綁定 h=" + Dec(handle), " va=0x", Hex(va)), " (off=0x", Hex(offset)) + ")")
  }

  function SummaryTitleLine(): Line {
    Line("====", With("============ ", "記憶體總表 ", "================"))
  }

  function SummaryHeadLine(): Line {
    Line("h   ", SummaryHead0() + SummaryHead1())
  }

  function SummaryHead0(): Clean {
    With("size       flags  ", "flags 解開", "               ")
  }

  function SummaryHead1(): Clean { "dma_addr     mmap offset    user VA" }

  function SummaryLine(handle: nat, size: nat, flags: nat, names: Clean, dma: nat, offset: nat, va: nat): Line {
    DecimalToken(handle);
    Line(Decimal(handle), With(With(With(SummaryFlags(handle, size, flags, names), " 0x", HexPad(dma, 10)),
                                    " 0x", HexPad(offset, 12)),
                               " 0x", Hex(va)))
  }

  /** The handle is left-justified in three columns. */
  function SummaryFlags(handle: nat, size: nat, flags: nat, names: Clean): Clean {
    With(With(With(Blanks(3 - |Dec(handle)|), " ", Column(Dec(size), -10)), " 0x", HexPad(flags, 2)),
         "   ", Column(names, -26))
  }

  function SummaryFootLine(): Line {
    Line("同一塊記憶體", With("的三個名字：", SummaryFoot0(), SummaryFoot1()))
  }

  function SummaryFoot0(): Clean {
    With("handle（使用者的號碼牌）", "／dma_addr", "（硬體看的位址）")
  }

  function SummaryFoot1(): Clean {
    With("／user VA", "（mmap 後 CPU ", "用的指標）")
  }

  function LineOf(c: Chatter): Line {
    match c
    case Blank => Empty
    case SubmitFlags(flags, start, number, coreMask, fence) => FlagsLine(flags, start, number, coreMask, fence)
    case SubmitObject(obj, base, domain) => ObjectLine(obj, base, domain)
    case Subcore(index, start, number) => SubcoreLine(index, start, number)
    case NoTaskBuffer => NoTaskBufferLine()
    case TaskBufferUnmapped => TaskBufferUnmappedLine()
    case TaskBuffer(va, dma, size) => TaskBufferLine(va, dma, size)
    case RawTask(task, op, amount, offset, regcmd, mask) => RawTaskLine(task, op, amount, offset, regcmd, mask)
    case RegcmdUnknown => RegcmdUnknownLine()
    case RegcmdUnmapped => RegcmdUnmappedLine()
    case RegcmdBuffer(va, dma, offset) => RegcmdLine(va, dma, offset)
    case RawWord(bytes, word, offset, val, tag) => RawWordLine(bytes, word, offset, val, tag)
    case LegendTitle => LegendTitleLine()
    case LegendSizes => LegendSizesLine()
    case LegendConv => LegendConvLine()
    case LegendWeights => LegendWeightsLine()
    case PagemapFailed(reason) => PagemapLine(reason)
    case PhysicalTitle => PhysicalTitleLine()
    case PhysicalBuffer(handle, dma, size) => PhysicalLine(handle, dma, size)
    case NoPage(k, iova) => NoPageLine(k, iova)
    case PageAt(k, iova, pa, jump) => PageLine(k, iova, pa, jump)
    case MemCreate(handle, size, flags, obj, dma) => CreateLine(handle, size, flags, obj, dma)
    case MemMap(handle, offset) => MapLine(handle, offset)
    case Mapped(handle, va, offset) => MappedLine(handle, va, offset)
    case SummaryTitle => SummaryTitleLine()
    case SummaryHead => SummaryHeadLine()
    case SummaryRow(handle, size, flags, names, dma, offset, va) =>
      SummaryLine(handle, size, flags, names, dma, offset, va)
    case SummaryFoot => SummaryFootLine()
  }

  function Say(cs: seq<Chatter>): (lines: seq<string>)
    ensures |lines| == |cs| && NoSubmit(lines) && NoRows(lines)
  {
    if cs == [] then []
    else
      var l := LineOf(cs[|cs| - 1]);
      LineIsQuiet(l);
      Say(cs[..|cs| - 1]) + [Written(l)]
  }

  // ----- The start of a submit

  function MarkLine(k: nat): string {
    "================ " + (MARK + (Decimal(k) + " ================"))
  }

  lemma {:induction false} ContainsLater(s: string, rest: string)
    requires Contains(rest, MARK)
    ensures Contains(s + rest, MARK)
  {
    if s == "" {
      assert s + rest == rest;
    } else {
      assert (s + rest)[1..] == s[1..] + rest;
      ContainsLater(s[1..], rest);
    }
  }

  lemma MarkLineMarks(k: nat)
    ensures Contains(MarkLine(k), MARK)
  {
    ContainsLater("================ ", MARK + (Decimal(k) + " ================"));
  }

  // ----- The log of the shim

  /** The whole log: the first submit with its table, and then whatever follows. */
  function Log(before: seq<Chatter>, k: nat, head: seq<Chatter>, table: seq<string>, tail: seq<Chatter>,
               later: seq<string>): seq<string>
  {
    Say(before) + ([MarkLine(k)] + (Say(head) + (table + (Say(tail) + later))))
  }

  /**
    The shim's log, read by the script: whatever its other lines say, and whatever follows the
    second submit's first line, the result is the latest W, H, k_h and s_y per task of the first
    submit's table.
   */
  lemma LoadOfShimLog(before: seq<Chatter>, k: nat, head: seq<Chatter>, start: nat, shown: seq<Shown>,
                      tail: seq<Chatter>, later: seq<string>, j: nat, limit: int)
    requires later == [] || later[0] == MarkLine(j)
    ensures var log := Log(before, k, head, FormatAll(Lines(start, shown)), tail, later);
      ReadLines(Some(START), limit, log).Some?
      && ReadLines(Some(START), limit, log).value.rows == Expected(start, shown, limit)
  {
    MarkLineMarks(k);
    MarkLineMarks(j);
    LoadOfDump(Log(before, k, head, FormatAll(Lines(start, shown)), tail, later),
               Say(before), MarkLine(k), Say(head), Say(tail), later, start, shown, limit);
  }
}
