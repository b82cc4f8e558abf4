/** The frame walker: follows the chain of saved base pointers from the
    tracer's own frame towards main, writing one line per frame.

    The two assembly primitives are parameters: the initial base pointer is
    an argument of Traceback, and get_return_addr is Env.returnAddr. The
    output file is a sequence of lines; whether the n-th call to Write
    succeeds is Env.accepts(n). */
module Walker {
  import opened Machine
  import opened Symbols
  import opened Format
  import opened Render

  /** Everything the walk depends on besides memory: the function table,
      libc's %p and %f, get_return_addr, and the outcome of each Write. */
  datatype Env = Env(
    table: seq<FunctionDesc>,
    libc: Libc,
    returnAddr: Word -> Word,
    accepts: nat -> bool)

  /** Why the walk ended. */
  datatype Stop =
    | NullFrame                     // the base pointer became NULL
    | BadFrame                      // the base pointer is not readable
    | BadReturnAddress              // the return address is not readable
    | RootFrame                     // saved pointer not above, and not writable
    | CorruptSavedFrame(saved: Word) // saved pointer not above, and writable
    | WriteFailed                   // Write reported an error

  /** The lines written, why the walk ended, and the final frame_invalid. */
  datatype Trace = Trace(lines: seq<string>, stop: Stop, frameInvalid: bool)

  /** A stop that sets frame_invalid. */
  predicate IsFatal(s: Stop)
  {
    s.BadFrame? || s.BadReturnAddress? || s.CorruptSavedFrame?
  }

  // ------------------------------------------------------------ one frame

  /** functions[i].args[k].name; entries past the declared list read as the
      empty name that ends it. */
  function ArgName(args: seq<ArgDesc>, k: nat): string
  {
    if k < |args| then args[k].name else ""
  }

  /** The argument loop's condition at argument k. */
  predicate ArgActive(args: seq<ArgDesc>, k: nat)
  {
    k < ARGS_MAX_NUM && ArgName(args, k) != ""
  }

  /** Number of arguments the loop would decode if every slot were readable. */
  function ActiveFrom(args: seq<ArgDesc>, k: nat): (n: nat)
    requires k <= ARGS_MAX_NUM
    ensures k <= n <= ARGS_MAX_NUM && (n == k || n <= |args|)
    ensures forall i :: k <= i < n ==> ArgActive(args, i)
    ensures !ArgActive(args, n)
    decreases ARGS_MAX_NUM - k
  {
    if ArgActive(args, k) then ActiveFrom(args, k + 1) else k
  }

  function ActiveCount(args: seq<ArgDesc>): (n: nat)
    ensures n <= ARGS_MAX_NUM && n <= |args|
  {
    ActiveFrom(args, 0)
  }

  /** State of the argument loop when it stops: the buffer, arg_num, and
      whether it stopped on an unreadable slot. */
  datatype ArgList = ArgList(text: string, count: nat, fault: bool)

  /** What the argument loop asks of an argument: the text it appends for
      it when its slot is readable. */
  type ArgRenderer = ArgDesc -> string

  /** The arguments of the frame at bp, as get_function_arguments renders
      them; an unreadable slot is never rendered. */
  function ArgTexts(m: Mem, libc: Libc, bp: Word): ArgRenderer
  {
    (a: ArgDesc) => if IsAddressValid(m, ArgAddr(bp, a.offset)) then ArgText(m, libc, bp, a) else ""
  }

  /** The argument loop from argument k on, with buffer contents acc.
      ", " is appended before the slot is checked, so an unreadable k-th
      slot (k >= 1) leaves it behind. */
  function ArgsLoop(m: Mem, bp: Word, args: seq<ArgDesc>, text: ArgRenderer, k: nat, acc: string): (r: ArgList)
    requires k <= ARGS_MAX_NUM
    ensures k <= r.count <= ActiveFrom(args, k)
    ensures r.fault <==> r.count < ActiveFrom(args, k)
    decreases ARGS_MAX_NUM - k
  {
    if !ArgActive(args, k) then ArgList(acc, k, false)
    else
      var acc' := if k >= 1 then acc + ", " else acc;
      if !IsAddressValid(m, ArgAddr(bp, args[k].offset)) then ArgList(acc', k, true)
      else ArgsLoop(m, bp, args, text, k + 1, acc' + text(args[k]))
  }

  /** The text before the arguments. */
  function LineHead(f: FunctionDesc): string
  {
    "Function " + f.name + "("
  }

  /** The line written for a resolved frame whose arguments sit at bp. */
  function FrameLine(m: Mem, libc: Libc, f: FunctionDesc, bp: Word): string
  {
    var r := ArgsLoop(m, bp, f.args, ArgTexts(m, libc, bp), 0, LineHead(f));
    r.text + (if r.count == 0 then "void), in\n" else "), in\n")
  }

  /** Whether an argument slot of the frame was unreadable. */
  predicate FrameFault(m: Mem, libc: Libc, f: FunctionDesc, bp: Word)
  {
    ArgsLoop(m, bp, f.args, ArgTexts(m, libc, bp), 0, LineHead(f)).fault
  }

  /** The line written when the return address falls in no known function. */
  function UnresolvedLine(libc: Libc, ra: Word): string
  {
    "Function " + libc.pointer(ra) + "(...), in\n"
  }

  /** The line for return address ra with arguments read at bp, and whether
      an argument slot was unreadable. */
  function FrameOutput(m: Mem, env: Env, ra: Word, bp: Word): (string, bool)
    requires |env.table| >= 1
  {
    var idx := Resolve(env.table, ra);
    if idx == -1 then (UnresolvedLine(env.libc, ra), false)
    else (FrameLine(m, env.libc, env.table[idx], bp), FrameFault(m, env.libc, env.table[idx], bp))
  }

  /** Each text preceded by ", ": the form in which the argument loop
      appends the arguments after the first. Render.Join puts the separator
      between texts, so it has no suffix the loop's accumulator can be
      extended by one argument at a time; SepJoinJoins ties the two. */
  function SepJoin(xs: seq<string>): string
  {
    if |xs| == 0 then "" else ", " + xs[0] + SepJoin(xs[1..])
  }

  /** The first text followed by the rest, each after ", ", is the texts
      joined by ", ". */
  lemma {:induction false} SepJoinJoins(xs: seq<string>)
    requires |xs| >= 1
    ensures xs[0] + SepJoin(xs[1..]) == Join(xs, ", ")
    decreases |xs|
  {
    var rest := xs[1..];
    if |xs| == 1 {
      assert rest == [];
      EmptyConcat(xs[0]);
    } else {
      SepJoinJoins(rest);
      assert rest[1..] == xs[2..];
      Associate(", ", rest[0], SepJoin(rest[1..]));
      Associate(xs[0], ", ", Join(rest, ", "));
    }
  }

  /** ActiveFrom started anywhere before the first inactive argument finds
      that same argument. */
  lemma {:induction false} ActiveFromIsFirstInactive(args: seq<ArgDesc>, i: nat, k: nat)
    requires i <= ARGS_MAX_NUM && i <= k <= ActiveFrom(args, i)
    ensures ActiveFrom(args, k) == ActiveFrom(args, i)
    decreases k - i
  {
    if i < k {
      assert ArgActive(args, i);
      ActiveFromIsFirstInactive(args, i + 1, k);
    }
  }

  /** The first j argument slots are readable and rendered as texts, and
      slot j, if it is among the declared arguments, is not readable. */
  predicate RenderedBy(m: Mem, bp: Word, args: seq<ArgDesc>, text: ArgRenderer, texts: seq<string>)
  {
    && |texts| <= ActiveCount(args)
    && (forall i :: 0 <= i < |texts| ==> IsAddressValid(m, ArgAddr(bp, args[i].offset)) && texts[i] == text(args[i]))
    && (|texts| < ActiveCount(args) ==> !IsAddressValid(m, ArgAddr(bp, args[|texts|].offset)))
  }

  /** From argument k >= 1 on, the loop appends ", " and a text for each
      remaining readable argument, then a dangling ", " if it stopped on an
      unreadable slot. */
  lemma {:induction false} ArgsLoopRendered(m: Mem, bp: Word, args: seq<ArgDesc>, text: ArgRenderer, texts: seq<string>, k: nat, acc: string)
    requires RenderedBy(m, bp, args, text, texts)
    requires 1 <= k <= |texts|
    ensures var tail := if |texts| < ActiveCount(args) then ", " else "";
      ArgsLoop(m, bp, args, text, k, acc) == ArgList(acc + SepJoin(texts[k..]) + tail, |texts|, |texts| < ActiveCount(args))
    decreases |texts| - k
  {
    var tail := if |texts| < ActiveCount(args) then ", " else "";
    ActiveFromIsFirstInactive(args, 0, k);
    if k < |texts| {
      var t := texts[k];
      var rest := SepJoin(texts[k + 1..]);
      ArgsLoopRendered(m, bp, args, text, texts, k + 1, acc + ", " + t);
      assert ArgsLoop(m, bp, args, text, k, acc) == ArgsLoop(m, bp, args, text, k + 1, acc + ", " + t);
      assert texts[k..][1..] == texts[k + 1..];
      assert SepJoin(texts[k..]) == ", " + t + rest;
      Associate(acc, ", ", t);
      Associate(acc, ", " + t, rest);
    } else {
      assert texts[k..] == [];
      EmptyConcat(acc);
      if |texts| == ActiveCount(args) {
        EmptyConcat(acc + "");
      }
    }
  }

  /** The line format: when the first j slots (j at most the number of
      declared arguments, 6 at most) are readable and, if j is below that
      number, slot j is not, the line is the function name, "void" if j is
      0, and otherwise the j rendered arguments joined by ", " and a
      dangling ", " if slot j faulted; then the closing "), in". The frame
      reports a fault exactly when j is below the declared number. */
  lemma FrameLineFormat(m: Mem, libc: Libc, f: FunctionDesc, bp: Word, texts: seq<string>)
    requires RenderedBy(m, bp, f.args, ArgTexts(m, libc, bp), texts)
    ensures FrameFault(m, libc, f, bp) <==> |texts| < ActiveCount(f.args)
    ensures |texts| == 0 ==> FrameLine(m, libc, f, bp) == "Function " + f.name + "(void), in\n"
    ensures |texts| > 0 ==>
      FrameLine(m, libc, f, bp)
      == "Function " + f.name + "(" + texts[0] + SepJoin(texts[1..]) + (if |texts| < ActiveCount(f.args) then ", " else "") + "), in\n"
  {
    var head := LineHead(f);
    var text := ArgTexts(m, libc, bp);
    var r := ArgsLoop(m, bp, f.args, text, 0, head);
    if |texts| == 0 {
      assert r.text == head && r.count == 0;
      Associate("Function " + f.name, "(", "void), in\n");
    } else {
      ArgsLoopRendered(m, bp, f.args, text, texts, 1, head + texts[0]);
      assert r == ArgsLoop(m, bp, f.args, text, 1, head + texts[0]);
      Associate(head, texts[0], SepJoin(texts[1..]));
    }
  }

  /** The same line with its arguments written as Render.Join joins them:
      the rendered texts separated by ", ". */
  lemma FrameLineJoined(m: Mem, libc: Libc, f: FunctionDesc, bp: Word, texts: seq<string>)
    requires RenderedBy(m, bp, f.args, ArgTexts(m, libc, bp), texts)
    requires |texts| > 0
    ensures FrameLine(m, libc, f, bp)
      == "Function " + f.name + "(" + Join(texts, ", ") + (if |texts| < ActiveCount(f.args) then ", " else "") + "), in\n"
  {
    FrameLineFormat(m, libc, f, bp, texts);
    JoinedArgs(LineHead(f), texts, if |texts| < ActiveCount(f.args) then ", " else "");
  }

  /** The loop's text regrouped: the head, then the arguments joined by
      ", ", then the tail. */
  lemma JoinedArgs(head: string, xs: seq<string>, tail: string)
    requires |xs| >= 1
    ensures head + xs[0] + SepJoin(xs[1..]) + tail == head + Join(xs, ", ") + tail
  {
    Associate(head, xs[0], SepJoin(xs[1..]));
    SepJoinJoins(xs);
  }

  /** The argument loop of traceback for one resolved frame, building the
      line in place; reports whether an argument slot was unreadable. */
  method BuildFrameLine(m: Mem, libc: Libc, f: FunctionDesc, bp: Word) returns (line: string, fault: bool)
    ensures line == FrameLine(m, libc, f, bp)
    ensures fault == FrameFault(m, libc, f, bp)
  {
    line := "Function " + f.name + "(";
    fault := false;
    var argNum := 0;
    ghost var text := ArgTexts(m, libc, bp);
    ghost var whole := ArgsLoop(m, bp, f.args, text, 0, line);
    while ArgName(f.args, argNum) != "" && argNum < ARGS_MAX_NUM
      invariant 0 <= argNum <= ARGS_MAX_NUM
      invariant ArgsLoop(m, bp, f.args, text, argNum, line) == whole
      decreases ARGS_MAX_NUM - argNum
    {
      if argNum >= 1 {
        line := line + ", ";
      }
      var a := f.args[argNum];
      if IsAddressValid(m, ArgAddr(bp, a.offset)) {
        line := GetFunctionArguments(m, libc, bp, a, line);
        assert text(a) == ArgText(m, libc, bp, a);
      } else {
        // C also formats "), in" here, at an offset that the closing
        // below writes over.
        fault := true;
        break;
      }
      argNum := argNum + 1;
    }
    assert whole == ArgList(line, argNum, fault);
    if argNum == 0 {
      line := line + "void), in\n";
    } else {
      line := line + "), in\n";
    }
  }

  // ----------------------------------------------------------------- walk

  /** What the walk asks of a frame: given the return address and the base
      pointer its arguments are read at, the line written for it and
      whether one of its argument slots was unreadable. */
  type FrameRenderer = (Word, Word) -> (string, bool)

  /** The frames of this memory and environment, as traceback renders them. */
  function Frames(m: Mem, env: Env): FrameRenderer
    requires |env.table| >= 1
  {
    (ra: Word, fp: Word) => FrameOutput(m, env, ra, fp)
  }

  /** traceback's loop from base pointer bp, with the lines written so far
      and the current frame_invalid. Each turn reads the saved base
      pointer, moves up to it, and only then renders the frame, with its
      arguments read at the new base pointer. */
  function WalkFrom(m: Mem, env: Env, frame: FrameRenderer, bp: Word, lines: seq<string>, invalid: bool): (t: Trace)
    decreases ADDRESS_SPACE - bp
  {
    if bp == 0 then Trace(lines, NullFrame, invalid)
    else if !IsAddressValid(m, bp) then Trace(lines, BadFrame, true)
    else
      var ra := env.returnAddr(bp);
      if !IsAddressValid(m, ra) then Trace(lines, BadReturnAddress, true)
      else
        var saved := ReadWord(m, bp);
        if saved <= bp then
          if IsWritable(m, saved) then Trace(lines, CorruptSavedFrame(saved), true)
          else Trace(lines, RootFrame, invalid)
        else
          var out := frame(ra, saved);
          if !env.accepts(|lines|) then Trace(lines, WriteFailed, invalid || out.1)
          else WalkFrom(m, env, frame, saved, lines + [out.0], invalid || out.1)
  }

  /** The whole walk from the tracer's own base pointer. */
  function Walk(m: Mem, env: Env, bp: Word): Trace
    requires |env.table| >= 1
  {
    WalkFrom(m, env, Frames(m, env), bp, [], false)
  }

  /** traceback. Memory changes only when the walk ends on a writable saved
      pointer: the write probe then leaves DUMMY_VALUE there. The FATAL
      message is formatted into the buffer after the loop but never written,
      so it is not part of the output. */
  method Traceback(mem: AddressSpace, env: Env, initialBp: Word) returns (lines: seq<string>, stop: Stop, frameInvalid: bool)
    requires mem.Valid() && |env.table| >= 1
    modifies mem
    ensures mem.Valid()
    ensures Trace(lines, stop, frameInvalid) == Walk(old(mem.View()), env, initialBp)
    ensures mem.View() == if stop.CorruptSavedFrame? then StoreWord(old(mem.View()), stop.saved, DUMMY_VALUE) else old(mem.View())
  {
    ghost var m := mem.View();
    ghost var frames := Frames(m, env);
    ghost var whole := Walk(m, env, initialBp);
    var basePointer := initialBp;
    lines := [];
    stop := NullFrame;
    frameInvalid := false;
    while basePointer != 0
      invariant mem.Valid() && mem.View() == m
      invariant WalkFrom(m, env, frames, basePointer, lines, frameInvalid) == whole
      decreases ADDRESS_SPACE - basePointer
    {
      if !IsAddressValid(mem.View(), basePointer) {
        frameInvalid := true;
        stop := BadFrame;
        break;
      }
      var returnAddr := env.returnAddr(basePointer);
      if !IsAddressValid(mem.View(), returnAddr) {
        frameInvalid := true;
        stop := BadReturnAddress;
        break;
      }
      var saved := ReadWord(mem.View(), basePointer);
      if saved > basePointer {
        basePointer := saved;
      } else {
        var writable := mem.CheckMemAddrWritable(saved);
        if !writable {
          stop := RootFrame;
        } else {
          frameInvalid := true;
          stop := CorruptSavedFrame(saved);
        }
        break;
      }
      var funcIndex := GetFunctionIndex(env.table, returnAddr);
      var line: string;
      var argFault := false;
      if funcIndex == -1 {
        line := UnresolvedLine(env.libc, returnAddr);
      } else {
        line, argFault := BuildFrameLine(mem.View(), env.libc, env.table[funcIndex], basePointer);
      }
      assert (line, argFault) == frames(returnAddr, basePointer);
      if argFault {
        frameInvalid := true;
      }
      if !env.accepts(|lines|) {
        stop := WriteFailed;
        return;
      }
      lines := lines + [line];
    }
    assert whole == Trace(lines, stop, frameInvalid);
  }
}

module WalkerProps {
  import opened Machine
  import opened Symbols
  import opened Format
  import opened Render
  import opened Walker

  /** A line as traceback writes it: "Function ", then "), in" and a newline. */
  predicate IsFrameLine(s: string)
  {
    |s| >= 15 && s[..9] == "Function " && s[|s| - 6..] == "), in\n"
  }

  /** A string extended at the end keeps its prefix. */
  lemma PrefixKept(a: string, b: string)
    ensures (a + b)[..|a|] == a
  {
  }

  /** One readable turn of the argument loop: ", " (after the first
      argument) and the argument's text are appended, and the buffer
      so far is kept in front. */
  lemma ArgsLoopStep(m: Mem, bp: Word, args: seq<ArgDesc>, text: ArgRenderer, k: nat, acc: string)
    requires k < ARGS_MAX_NUM && ArgActive(args, k) && IsAddressValid(m, ArgAddr(bp, args[k].offset))
    ensures var next := (if k >= 1 then acc + ", " else acc) + text(args[k]);
      && ArgsLoop(m, bp, args, text, k, acc) == ArgsLoop(m, bp, args, text, k + 1, next)
      && |acc| <= |next| && next[..|acc|] == acc
  {
    var acc' := if k >= 1 then acc + ", " else acc;
    var x := text(args[k]);
    PrefixKept(acc, ", ");
    PrefixKept(acc', x);
    PrefixThrough(acc' + x, acc, acc');
  }

  /** The argument loop only ever appends to the buffer. */
  lemma {:induction false} ArgsLoopExtends(m: Mem, bp: Word, args: seq<ArgDesc>, text: ArgRenderer, k: nat, acc: string)
    requires k <= ARGS_MAX_NUM
    ensures var r := ArgsLoop(m, bp, args, text, k, acc); |acc| <= |r.text| && r.text[..|acc|] == acc
    decreases ARGS_MAX_NUM - k
  {
    if ArgActive(args, k) {
      if IsAddressValid(m, ArgAddr(bp, args[k].offset)) {
        var next := (if k >= 1 then acc + ", " else acc) + text(args[k]);
        ArgsLoopStep(m, bp, args, text, k, acc);
        ArgsLoopExtends(m, bp, args, text, k + 1, next);
        PrefixThrough(ArgsLoop(m, bp, args, text, k + 1, next).text, acc, next);
      } else {
        PrefixKept(acc, ", ");
      }
    }
  }

  /** A prefix of a prefix is a prefix. */
  lemma PrefixThrough(t: string, a: string, b: string)
    requires |b| <= |t| && t[..|b|] == b && |a| <= |b| && b[..|a|] == a
    ensures t[..|a|] == a
  {
    assert t[..|a|] == t[..|b|][..|a|];
  }

  /** A line that begins with a head starting "Function " and ends with a
      closing ending "), in" and a newline has the frame line shape. */
  lemma LineShape(head: string, text: string, close: string)
    requires |head| >= 9 && head[..9] == "Function "
    requires |head| <= |text| && text[..|head|] == head
    requires |close| >= 6 && close[|close| - 6..] == "), in\n"
    ensures IsFrameLine(text + close)
  {
    var s := text + close;
    assert s[..9] == text[..|head|][..9];
    assert s[|s| - 6..] == close[|close| - 6..];
  }

  /** The line for a resolved frame has the frame line shape. */
  lemma FrameLineShape(m: Mem, libc: Libc, f: FunctionDesc, bp: Word)
    ensures IsFrameLine(FrameLine(m, libc, f, bp))
  {
    var head := LineHead(f);
    var text := ArgTexts(m, libc, bp);
    ArgsLoopExtends(m, bp, f.args, text, 0, head);
    var r := ArgsLoop(m, bp, f.args, text, 0, head);
    var close := if r.count == 0 then "void), in\n" else "), in\n";
    assert head == "Function " + f.name + "(";
    PrefixKept("Function ", f.name + "(");
    LineShape(head, r.text, close);
  }

  /** Every line a frame produces, resolved or not, has the frame line shape. */
  lemma FrameOutputShape(m: Mem, env: Env, ra: Word, bp: Word)
    requires |env.table| >= 1
    ensures IsFrameLine(FrameOutput(m, env, ra, bp).0)
  {
    var idx := Resolve(env.table, ra);
    if idx == -1 {
      var p := env.libc.pointer(ra);
      assert UnresolvedLine(env.libc, ra) == "Function " + p + "(...), in\n";
      PrefixKept("Function ", p);
      LineShape("Function ", "Function " + p, "(...), in\n");
    } else {
      FrameLineShape(m, env.libc, env.table[idx], bp);
    }
  }

  /** One turn of the walk that climbs to a higher frame: the frame's line
      is written if Write accepts it, and its argument fault joins
      frame_invalid either way. */
  lemma WalkStep(m: Mem, env: Env, frame: FrameRenderer, bp: Word, lines: seq<string>, invalid: bool)
    requires bp != 0 && IsAddressValid(m, bp) && IsAddressValid(m, env.returnAddr(bp))
    requires ReadWord(m, bp) > bp
    ensures var saved := ReadWord(m, bp);
      var out := frame(env.returnAddr(bp), saved);
      WalkFrom(m, env, frame, bp, lines, invalid)
      == if env.accepts(|lines|) then WalkFrom(m, env, frame, saved, lines + [out.0], invalid || out.1)
         else Trace(lines, WriteFailed, invalid || out.1)
  {
  }

  /** The walk extends the lines written so far; each new line is one the
      renderer produced (of the frame line shape when every rendered line
      is) and was accepted by Write; a walk cut short by Write stopped at
      the first refused write. */
  lemma {:induction false} WalkFromLines(m: Mem, env: Env, frame: FrameRenderer, bp: Word, lines: seq<string>, invalid: bool)
    requires forall ra: Word, fp: Word :: IsFrameLine(frame(ra, fp).0)
    ensures var t := WalkFrom(m, env, frame, bp, lines, invalid);
      && |lines| <= |t.lines| && t.lines[..|lines|] == lines
      && (forall i :: |lines| <= i < |t.lines| ==> env.accepts(i) && IsFrameLine(t.lines[i]))
      && (t.stop == WriteFailed ==> !env.accepts(|t.lines|))
    decreases ADDRESS_SPACE - bp
  {
    var t := WalkFrom(m, env, frame, bp, lines, invalid);
    if bp != 0 && IsAddressValid(m, bp) && IsAddressValid(m, env.returnAddr(bp)) && ReadWord(m, bp) > bp {
      var saved := ReadWord(m, bp);
      var out := frame(env.returnAddr(bp), saved);
      WalkStep(m, env, frame, bp, lines, invalid);
      if env.accepts(|lines|) {
        var next := lines + [out.0];
        WalkFromLines(m, env, frame, saved, next, invalid || out.1);
        assert t.lines[..|next|] == next;
        assert t.lines[..|lines|] == t.lines[..|next|][..|lines|];
        forall i | |lines| <= i < |t.lines|
          ensures env.accepts(i) && IsFrameLine(t.lines[i])
        {
          if i == |lines| {
            assert t.lines[i] == t.lines[..|next|][i] == out.0;
          }
        }
      }
    }
  }

  /** A fatal stop always reports frame_invalid, and frame_invalid is never
      cleared. */
  lemma {:induction false} WalkFromInvalid(m: Mem, env: Env, frame: FrameRenderer, bp: Word, lines: seq<string>, invalid: bool)
    ensures var t := WalkFrom(m, env, frame, bp, lines, invalid);
      && (IsFatal(t.stop) ==> t.frameInvalid)
      && (invalid ==> t.frameInvalid)
    decreases ADDRESS_SPACE - bp
  {
    if bp != 0 && IsAddressValid(m, bp) && IsAddressValid(m, env.returnAddr(bp)) && ReadWord(m, bp) > bp {
      var saved := ReadWord(m, bp);
      var out := frame(env.returnAddr(bp), saved);
      WalkStep(m, env, frame, bp, lines, invalid);
      if env.accepts(|lines|) {
        WalkFromInvalid(m, env, frame, saved, lines + [out.0], invalid || out.1);
      }
    }
  }

  /** The whole walk: every line has the frame line shape and was accepted
      by Write; a walk cut short by Write stopped at the first refused
      write; a fatal stop reports frame_invalid. */
  lemma WalkShape(m: Mem, env: Env, bp: Word)
    requires |env.table| >= 1
    ensures var t := Walk(m, env, bp);
      && (forall i :: 0 <= i < |t.lines| ==> env.accepts(i) && IsFrameLine(t.lines[i]))
      && (t.stop == WriteFailed ==> !env.accepts(|t.lines|))
      && (IsFatal(t.stop) ==> t.frameInvalid)
  {
    var frame := Frames(m, env);
    forall ra: Word, fp: Word
      ensures IsFrameLine(frame(ra, fp).0)
    {
      FrameOutputShape(m, env, ra, fp);
    }
    WalkFromLines(m, env, frame, bp, [], false);
    WalkFromInvalid(m, env, frame, bp, [], false);
  }

  /** The walk climbs from base pointer bp to next without stopping, and
      Write accepts the line as its n-th write: bp is non-NULL and
      readable, so is its return address, and its saved pointer is next,
      strictly above it. */
  predicate Link(m: Mem, env: Env, bp: Word, next: Word, n: nat)
  {
    && bp != 0 && IsAddressValid(m, bp) && IsAddressValid(m, env.returnAddr(bp))
    && ReadWord(m, bp) == next && bp < next
    && env.accepts(n)
  }

  /** fps is a chain of frames the walk climbs, its lines accepted as
      writes n0, n0 + 1, and so on. */
  predicate Chain(m: Mem, env: Env, fps: seq<Word>, n0: nat)
  {
    forall i :: 0 <= i < |fps| - 1 ==> Link(m, env, fps[i], fps[i + 1], n0 + i)
  }

  /** The lines a chain of frames writes, one per link. */
  function ChainLines(env: Env, frame: FrameRenderer, fps: seq<Word>): (r: seq<string>)
    requires |fps| >= 1
    ensures |r| == |fps| - 1
  {
    if |fps| == 1 then []
    else [frame(env.returnAddr(fps[0]), fps[1]).0] + ChainLines(env, frame, fps[1..])
  }

  /** Whether some link of the chain had an unreadable argument slot. */
  predicate ChainFault(env: Env, frame: FrameRenderer, fps: seq<Word>)
    requires |fps| >= 1
  {
    |fps| >= 2 && (frame(env.returnAddr(fps[0]), fps[1]).1 || ChainFault(env, frame, fps[1..]))
  }

  /** The i-th line of a chain is the frame named by the i-th return
      address, with its arguments read at the next base pointer. */
  lemma {:induction false} ChainLinesAt(env: Env, frame: FrameRenderer, fps: seq<Word>)
    requires |fps| >= 1
    ensures forall i :: 0 <= i < |fps| - 1 ==>
      ChainLines(env, frame, fps)[i] == frame(env.returnAddr(fps[i]), fps[i + 1]).0
    decreases |fps|
  {
    if |fps| >= 2 {
      var rest := fps[1..];
      var lines := ChainLines(env, frame, fps);
      assert lines == [frame(env.returnAddr(fps[0]), fps[1]).0] + ChainLines(env, frame, rest);
      ChainLinesAt(env, frame, rest);
      forall i | 0 <= i < |fps| - 1
        ensures lines[i] == frame(env.returnAddr(fps[i]), fps[i + 1]).0
      {
        if i > 0 {
          assert lines[i] == ChainLines(env, frame, rest)[i - 1];
          assert rest[i - 1] == fps[i] && rest[i] == fps[i + 1];
        }
      }
    }
  }

  /** The chain faults exactly when one of its frames has an unreadable
      argument slot. */
  lemma {:induction false} ChainFaultAt(env: Env, frame: FrameRenderer, fps: seq<Word>)
    requires |fps| >= 1
    ensures ChainFault(env, frame, fps) <==>
      exists i :: 0 <= i < |fps| - 1 && frame(env.returnAddr(fps[i]), fps[i + 1]).1
    decreases |fps|
  {
    if |fps| >= 2 {
      var rest := fps[1..];
      ChainFaultAt(env, frame, rest);
      if ChainFault(env, frame, rest) {
        var i :| 0 <= i < |rest| - 1 && frame(env.returnAddr(rest[i]), rest[i + 1]).1;
        assert frame(env.returnAddr(fps[i + 1]), fps[i + 2]).1;
      }
      if exists i :: 0 <= i < |fps| - 1 && frame(env.returnAddr(fps[i]), fps[i + 1]).1 {
        var i :| 0 <= i < |fps| - 1 && frame(env.returnAddr(fps[i]), fps[i + 1]).1;
        if i > 0 {
          assert frame(env.returnAddr(rest[i - 1]), rest[i]).1;
        }
      }
    }
  }

  /** Appending regroups freely; spelled out for the solver. */
  lemma AppendAssociates(a: seq<string>, b: seq<string>, c: seq<string>)
    ensures a + b + c == a + (b + c)
  {
  }

  /** Climbing a chain writes its lines and folds its argument faults into
      frame_invalid; the rest of the walk continues from the chain's end. */
  lemma {:induction false} ChainWalk(m: Mem, env: Env, frame: FrameRenderer, fps: seq<Word>, lines: seq<string>, invalid: bool)
    requires |fps| >= 1 && Chain(m, env, fps, |lines|)
    ensures WalkFrom(m, env, frame, fps[0], lines, invalid)
         == WalkFrom(m, env, frame, fps[|fps| - 1], lines + ChainLines(env, frame, fps), invalid || ChainFault(env, frame, fps))
    decreases |fps|
  {
    if |fps| == 1 {
      assert lines + [] == lines;
    } else {
      var out := frame(env.returnAddr(fps[0]), fps[1]);
      var rest := fps[1..];
      var next := lines + [out.0];
      assert Chain(m, env, rest, |next|) by {
        forall i | 0 <= i < |rest| - 1
          ensures Link(m, env, rest[i], rest[i + 1], |next| + i)
        {
          assert Link(m, env, fps[i + 1], fps[i + 2], |lines| + (i + 1));
        }
      }
      assert Link(m, env, fps[0], fps[1], |lines| + 0);
      WalkStep(m, env, frame, fps[0], lines, invalid);
      ChainWalk(m, env, frame, rest, next, invalid || out.1);
      assert ChainLines(env, frame, fps) == [out.0] + ChainLines(env, frame, rest);
      AppendAssociates(lines, [out.0], ChainLines(env, frame, rest));
      assert rest[|rest| - 1] == fps[|fps| - 1];
    }
  }

  /** A clean trace: climbing a chain whose last frame's saved pointer is
      not above it and not writable (main's frame) writes one line per
      link, the frame named by that link's return address with its
      arguments read at the next base pointer, and ends at the root,
      invalid exactly when some argument slot was unreadable. */
  lemma CleanWalk(m: Mem, env: Env, fps: seq<Word>)
    requires |env.table| >= 1 && |fps| >= 1 && Chain(m, env, fps, 0)
    requires var last := fps[|fps| - 1];
      && last != 0 && IsAddressValid(m, last) && IsAddressValid(m, env.returnAddr(last))
      && ReadWord(m, last) <= last && !IsWritable(m, ReadWord(m, last))
    ensures var t := Walk(m, env, fps[0]);
      && t.stop == RootFrame && |t.lines| == |fps| - 1
      && (forall i :: 0 <= i < |fps| - 1 ==> t.lines[i] == FrameOutput(m, env, env.returnAddr(fps[i]), fps[i + 1]).0)
      && (t.frameInvalid <==> exists i :: 0 <= i < |fps| - 1 && FrameOutput(m, env, env.returnAddr(fps[i]), fps[i + 1]).1)
  {
    var frame := Frames(m, env);
    ChainWalk(m, env, frame, fps, [], false);
    ChainLinesAt(env, frame, fps);
    ChainFaultAt(env, frame, fps);
    assert [] + ChainLines(env, frame, fps) == ChainLines(env, frame, fps);
  }

  /** The fatal end of a walk: a chain of increasing frames that reaches a
      frame that is unreadable, whose return address is unreadable, or
      whose saved pointer is not above it and is writable, stops there with
      the matching reason and frame_invalid set. That last frame gets no
      line: one line is written per link, each the function of the link's
      return address with its arguments read at the next base pointer. */
  lemma FatalWalk(m: Mem, env: Env, fps: seq<Word>)
    requires |env.table| >= 1 && |fps| >= 1 && Chain(m, env, fps, 0)
    requires var last := fps[|fps| - 1];
      && last != 0
      && (|| !IsAddressValid(m, last)
          || !IsAddressValid(m, env.returnAddr(last))
          || (ReadWord(m, last) <= last && IsWritable(m, ReadWord(m, last))))
    ensures var t, last := Walk(m, env, fps[0]), fps[|fps| - 1];
      && t.stop == (if !IsAddressValid(m, last) then BadFrame
                    else if !IsAddressValid(m, env.returnAddr(last)) then BadReturnAddress
                    else CorruptSavedFrame(ReadWord(m, last)))
      && t.frameInvalid && |t.lines| == |fps| - 1
      && (forall i :: 0 <= i < |fps| - 1 ==> t.lines[i] == FrameOutput(m, env, env.returnAddr(fps[i]), fps[i + 1]).0)
  {
    var frame := Frames(m, env);
    ChainWalk(m, env, frame, fps, [], false);
    ChainLinesAt(env, frame, fps);
    assert [] + ChainLines(env, frame, fps) == ChainLines(env, frame, fps);
  }

  /** The Write outcome that never fails. */
  function AcceptAll(n: nat): bool
  {
    true
  }

  /** Write failures only cut the output short: the lines written are a
      prefix of those the same walk writes when every Write succeeds; a
      walk that did not stop on Write is that walk; and a frame_invalid
      already reported stays reported. */
  lemma {:induction false} WriteFailureTruncates(m: Mem, env: Env, frame: FrameRenderer, bp: Word, lines: seq<string>, invalid: bool)
    ensures var t := WalkFrom(m, env, frame, bp, lines, invalid);
      var full := WalkFrom(m, env.(accepts := AcceptAll), frame, bp, lines, invalid);
      && t.lines <= full.lines
      && (t.stop != WriteFailed ==> t == full)
      && (t.frameInvalid ==> full.frameInvalid)
    decreases ADDRESS_SPACE - bp
  {
    var env' := env.(accepts := AcceptAll);
    if bp != 0 && IsAddressValid(m, bp) && IsAddressValid(m, env.returnAddr(bp)) && ReadWord(m, bp) > bp {
      var saved := ReadWord(m, bp);
      var out := frame(env.returnAddr(bp), saved);
      var next := lines + [out.0];
      WalkStep(m, env, frame, bp, lines, invalid);
      WalkStep(m, env', frame, bp, lines, invalid);
      WalkFromPrefix(m, env', frame, saved, next, invalid || out.1);
      WalkFromInvalid(m, env', frame, saved, next, invalid || out.1);
      if env.accepts(|lines|) {
        WriteFailureTruncates(m, env, frame, saved, next, invalid || out.1);
      } else {
        var full := WalkFrom(m, env', frame, saved, next, invalid || out.1);
        assert lines <= full.lines[..|next|];
      }
    }
  }

  /** The walk keeps the lines already written in front. */
  lemma {:induction false} WalkFromPrefix(m: Mem, env: Env, frame: FrameRenderer, bp: Word, lines: seq<string>, invalid: bool)
    ensures var t := WalkFrom(m, env, frame, bp, lines, invalid);
      |lines| <= |t.lines| && t.lines[..|lines|] == lines
    decreases ADDRESS_SPACE - bp
  {
    if bp != 0 && IsAddressValid(m, bp) && IsAddressValid(m, env.returnAddr(bp)) && ReadWord(m, bp) > bp {
      var saved := ReadWord(m, bp);
      var out := frame(env.returnAddr(bp), saved);
      WalkStep(m, env, frame, bp, lines, invalid);
      if env.accepts(|lines|) {
        var next := lines + [out.0];
        WalkFromPrefix(m, env, frame, saved, next, invalid || out.1);
        var t := WalkFrom(m, env, frame, saved, next, invalid || out.1);
        assert t.lines[..|lines|] == t.lines[..|next|][..|lines|];
      }
    }
  }
}
