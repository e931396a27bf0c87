/** include/redis_protocol_parser.rl: the incremental parser of requests in the Redis serialization
  * protocol (RESP). A byte is the char with its code. The machine is given twice: byte by byte,
  * as the grammar reads, and as the driver runs it, a buffer at a time with blobs in one piece. */
module RespParser {
  import opened Options

  // uint32_t
  const MODULUS: nat := 0x1_0000_0000

  // The three numbers of a request.
  datatype Number = ArgsCount | WordSize | ArgSize

  // Where the machine is: what it has read last, or what it expects.
  datatype Control =
    | Tag(number: Number)                       // expects the '*' or '$' of a number
    | Digits(number: Number, started: bool)     // expects a digit, or CR once started
    | DigitsLf(number: Number)                  // expects LF
    | Word(typed: string)                       // inside the command word
    | WordLf                                    // expects the LF after it
    | BlobStart                                 // has called the blob machine, no byte read yet
    | Blob
    | BlobCr | BlobLf                           // expects CR, LF after a blob
    | Final                                     // after an argument; expects another
    | Error

  datatype State = State(
    control: Control, ok: bool,
    u32: nat, argsCount: nat, argSize: nat, sizeLeft: nat,
    command: Option<nat>,       // place of the command among the alternatives of the grammar
    args: seq<string>,
    partial: string)            // the part of a blob seen so far

  function Init(u32: nat, command: Option<nat>): State {
    State(Tag(ArgsCount), false, u32, 0, 0, 0, command, [], "")
  }

  predicate IsDigit(b: char) { '0' <= b <= '9' }

  function Accumulate(u32: nat, b: char): nat
    requires IsDigit(b)
  {
    (u32 * 10 % MODULUS + (b as int - '0' as int)) % MODULUS
  }

  function Lower(b: char): char {
    if 'A' <= b <= 'Z' then (b as int + 32) as char else b
  }

  // The last of the alternatives that begin with `word`: the actions of all of them run on
  // every character of the word, in the order of the union.
  function LastWith(keywords: seq<string>, word: string): (k: Option<nat>)
    ensures k.Some? ==> k.value < |keywords| && word <= keywords[k.value]
    ensures forall i :: 0 <= i < |keywords| && word <= keywords[i] ==> k.Some? && i <= k.value
  {
    var n := |keywords|;
    if n == 0 then None
    else if word <= keywords[n - 1] then Some(n - 1)
    else LastWith(keywords[..n - 1], word)
  }

  function Reject(s: State): State {
    s.(control := Error)
  }

  // `_args_count` or `_arg_size`, set both at CR and at LF. The word's size is read, not used.
  function SetNumber(s: State, number: Number): State {
    if number == ArgsCount then s.(argsCount := s.u32) else s.(argSize := s.u32)
  }

  function AfterNumber(number: Number): Control {
    match number
    case ArgsCount => Tag(WordSize)
    case WordSize => Word("")
    case ArgSize => BlobStart
  }

  function Push(s: State): State {
    s.(args := s.args + [s.partial], partial := "", control := BlobCr)
  }

  function Accept(s: State, next: Control): State {
    s.(control := next, ok := true)
  }

  // A byte outside blobs: of a number with its tag and line end, or else.
  function StepMain(keywords: seq<string>, s: State, b: char): State {
    if s.control.Tag? || s.control.Digits? || s.control.DigitsLf? then StepNumber(s, s.control.number, b)
    else StepText(keywords, s, b)
  }

  function StepNumber(s: State, number: Number, b: char): State {
    if s.control.Tag? && b == (if number == ArgsCount then '*' else '$') then
      Accept(s, Digits(number, false))
    else if s.control.Digits? && IsDigit(b) then
      Accept(s, Digits(number, true)).(u32 := Accumulate(if s.control.started then s.u32 else 0, b))
    else if s.control.Digits? && s.control.started && b == '\r' then
      Accept(SetNumber(s, number), DigitsLf(number))
    else if s.control.DigitsLf? && b == '\n' then
      Accept(SetNumber(s, number), AfterNumber(number))
    else
      Reject(s)
  }

  function StepText(keywords: seq<string>, s: State, b: char): State {
    match s.control
    case Word(typed) =>
      var word := typed + [Lower(b)];
      if b == '\r' && typed in keywords then Accept(s, WordLf)
      else if LastWith(keywords, word).Some? then Accept(s, Word(word)).(command := LastWith(keywords, word))
      else Reject(s)
    case WordLf => if b == '\n' then Accept(s, Tag(ArgSize)) else Reject(s)
    case BlobCr => if b == '\r' then Accept(s, BlobLf) else Reject(s)
    case BlobLf => if b == '\n' then Accept(s, Final) else Reject(s)
    case Final => if b == '$' then Accept(s, Digits(ArgSize, false)) else Reject(s)
    case _ => Reject(s)
  }

  // A byte inside a blob; an empty blob takes none and leaves the byte to the main machine.
  function StepBlob(keywords: seq<string>, s: State, b: char): State {
    if s.sizeLeft == 0 then StepMain(keywords, Push(s), b)
    else
      var t := s.(control := Blob, partial := s.partial + [b], sizeLeft := s.sizeLeft - 1);
      if t.sizeLeft == 0 then Push(t) else t
  }

  function StartBlob(s: State): State {
    s.(control := Blob, sizeLeft := s.argSize, partial := "")
  }

  function Step(keywords: seq<string>, s: State, b: char): State {
    match s.control
    case Error => s
    case BlobStart => StepBlob(keywords, StartBlob(s), b)
    case Blob => StepBlob(keywords, s, b)
    case _ => StepMain(keywords, s, b)
  }

  function Run(keywords: seq<string>, s: State, buf: string): State
    decreases |buf|
  {
    if buf == [] then s else Run(keywords, Step(keywords, s, buf[0]), buf[1..])
  }

  lemma {:induction false} RunAppend(keywords: seq<string>, s: State, a: string, b: string)
    ensures Run(keywords, s, a + b) == Run(keywords, Run(keywords, s, a), b)
    decreases |a|
  {
    if a == [] {
      assert a + b == b;
    } else {
      assert (a + b)[1..] == a[1..] + b;
      RunAppend(keywords, Step(keywords, s, a[0]), a[1..], b);
    }
  }

  lemma {:induction false} RunError(keywords: seq<string>, s: State, buf: string)
    requires s.control.Error?
    ensures Run(keywords, s, buf) == s
    decreases |buf|
  {
    if buf != [] { RunError(keywords, s, buf[1..]); }
  }

  // ---- the driver -----------------------------------------------------------------------------

  // What a blob does with a stretch of bytes no longer than what is left of it.
  function TakeStretch(s: State, stretch: string): State
    requires |stretch| <= s.sizeLeft
  {
    var t := s.(partial := s.partial + stretch, sizeLeft := s.sizeLeft - |stretch|);
    if t.sizeLeft == 0 then Push(t) else t
  }

  lemma {:induction false} StretchIsBytes(keywords: seq<string>, s: State, stretch: string, rest: string)
    requires s.control.Blob? && |stretch| <= s.sizeLeft
    requires stretch == [] ==> s.sizeLeft == 0 && rest != []
    ensures Run(keywords, s, stretch + rest) == Run(keywords, TakeStretch(s, stretch), rest)
    decreases |stretch|
  {
    if stretch == [] {
      assert stretch + rest == rest && s.partial + stretch == s.partial;
    } else {
      assert (stretch + rest)[1..] == stretch[1..] + rest;
      var t := Step(keywords, s, stretch[0]);
      assert s.partial + stretch == s.partial + [stretch[0]] + stretch[1..];
      if |stretch| == 1 {
        assert stretch[1..] + rest == rest;
        assert s.partial + [stretch[0]] == s.partial + stretch;
      } else {
        StretchIsBytes(keywords, t, stretch[1..], rest);
      }
    }
  }

  lemma {:induction false} RunTail(keywords: seq<string>, s: State, buf: string, p: nat)
    requires p < |buf|
    ensures Run(keywords, s, buf[p..]) == Run(keywords, Step(keywords, s, buf[p]), buf[p + 1..])
  {
    assert buf[p..][1..] == buf[p + 1..];
  }

  // `_state` is ok from the first byte of a request on.
  predicate Begun(s: State) {
    s.ok || s.control == Tag(ArgsCount) || s.control.Error?
  }

  // Actions the driver may take without moving on.
  function Rank(c: Control): nat {
    if c.BlobStart? then 3 else if c.Blob? then 2 else if c.Error? then 0 else 1
  }

  class Parser {
    const keywords: seq<string>
    var control: Control
    var ok: bool
    var u32: nat
    var argsCount: nat
    var argSize: nat
    var sizeLeft: nat
    var command: Option<nat>
    var args: seq<string>
    var partial: string

    function View(): State
      reads this
    {
      State(control, ok, u32, argsCount, argSize, sizeLeft, command, args, partial)
    }

    constructor (keywords: seq<string>)
      ensures this.keywords == keywords && View() == Init(0, None)
      ensures control == Tag(ArgsCount) && !ok && args == [] && partial == "" && argsCount == argSize == sizeLeft == 0
    {
      this.keywords := keywords;
      control, ok, u32, argsCount, argSize, sizeLeft := Tag(ArgsCount), false, 0, 0, 0, 0;
      command, args, partial := None, [], "";
    }

    // The builder keeps nothing between requests; `_u32` and `_command` keep their values.
    method Reset()
      modifies this
      ensures View() == Init(old(u32), old(command))
      ensures control == Tag(ArgsCount) && !ok && args == [] && partial == "" && argsCount == argSize == sizeLeft == 0
    {
      control, ok, args, argsCount, sizeLeft, argSize, partial := Tag(ArgsCount), false, [], 0, 0, 0, "";
    }

    method AdvanceNumber(number: Number, b: char)
      modifies this
      ensures View() == StepNumber(old(View()), number, b)
    {
      var next := Error;
      if control.Tag? && b == (if number == ArgsCount then '*' else '$') {
        next := Digits(number, false);
      } else if control.Digits? && IsDigit(b) {
        if !control.started {
          u32 := 0;
        }
        u32 := u32 * 10 % MODULUS;
        u32 := (u32 + (b as int - '0' as int)) % MODULUS;
        next := Digits(number, true);
      } else if control.Digits? && control.started && b == '\r' {
        AssignNumber(number);
        next := DigitsLf(number);
      } else if control.DigitsLf? && b == '\n' {
        AssignNumber(number);
        next := AfterNumber(number);
      }
      ok := ok || !next.Error?;
      control := next;
    }

    method AdvanceText(b: char)
      modifies this
      ensures View() == StepText(keywords, old(View()), b)
    {
      var next := Error;
      if control.Word? {
        var word := control.typed + [Lower(b)];
        var last := LastWith(keywords, word);
        if b == '\r' && control.typed in keywords {
          next := WordLf;
        } else if last.Some? {
          next, command := Word(word), last;
        }
      } else if control.WordLf? && b == '\n' {
        next := Tag(ArgSize);
      } else if control.BlobCr? && b == '\r' {
        next := BlobLf;
      } else if control.BlobLf? && b == '\n' {
        next := Final;
      } else if control.Final? && b == '$' {
        next := Digits(ArgSize, false);
      }
      ok := ok || !next.Error?;
      control := next;
    }

    method AdvanceMain(b: char)
      modifies this
      ensures View() == StepMain(keywords, old(View()), b)
    {
      if control.Tag? || control.Digits? || control.DigitsLf? {
        AdvanceNumber(control.number, b);
      } else {
        AdvanceText(b);
      }
    }

    method AssignNumber(number: Number)
      modifies this`argsCount, this`argSize
      ensures View() == SetNumber(old(View()), number)
    {
      if number == ArgsCount {
        argsCount := u32;
      } else {
        argSize := u32;
      }
    }

    // advance_blob: takes what the buffer has of the blob and returns the position after it.
    method AdvanceBlob(buf: string, p: nat) returns (q: nat)
      requires p < |buf| < MODULUS
      modifies this
      ensures p <= q <= |buf|
      ensures q - p <= old(sizeLeft) && (q == p ==> old(sizeLeft) == 0) && View() == TakeStretch(old(View()), buf[p..q])
    {
      var len := if (|buf| - p) % MODULUS < sizeLeft then (|buf| - p) % MODULUS else sizeLeft;
      sizeLeft := sizeLeft - len;
      q := p + len;
      partial := partial + buf[p..q];
      if sizeLeft == 0 {
        args := args + [partial];
        partial := "";
        control := BlobCr;
      }
    }

    // One action of the driver at position `p`; the machine has yet to read from `q` on.
    method Advance(buf: string, p: nat) returns (q: nat)
      requires p < |buf| < MODULUS && Begun(View()) && !control.Error?
      modifies this
      ensures p <= q <= |buf| && Begun(View()) && (old(ok) || q > p ==> ok)
      ensures q > p || Rank(control) < Rank(old(control))
      ensures Run(keywords, View(), buf[q..]) == Run(keywords, old(View()), buf[p..])
    {
      ghost var s := View();
      RunTail(keywords, s, buf, p);
      q := p;
      if control.BlobStart? {
        sizeLeft := argSize;
        partial := "";
        control := Blob;
        assert View() == StartBlob(s);
        RunTail(keywords, View(), buf, p);
      } else if control.Blob? {
        q := AdvanceBlob(buf, p);
        assert buf[p..] == buf[p..q] + buf[q..];
        StretchIsBytes(keywords, s, buf[p..q], buf[q..]);
      } else {
        AdvanceMain(buf[p]);
        if control.Error? {
          RunError(keywords, View(), buf[p + 1..]);
          RunError(keywords, View(), buf[p..]);
        } else {
          q := p + 1;
        }
      }
    }

    // The machine after a buffer is the machine after each of its bytes, wherever blobs begin
    // and end. The result is where parsing stopped, or nothing if no request has begun.
    method Parse(buf: string) returns (r: Option<nat>)
      requires |buf| < MODULUS && Begun(View())
      modifies this
      ensures View() == Run(keywords, old(View()), buf) && Begun(View())
      ensures r.None? <==> buf == [] && !ok
      ensures r.Some? && !control.Error? ==> r.value == |buf|
    {
      var p := 0;
      ghost var after := Run(keywords, View(), buf);
      assert buf[0..] == buf;
      while p < |buf| && !control.Error?
        invariant p <= |buf| && Begun(View()) && (p > 0 ==> ok)
        invariant Run(keywords, View(), buf[p..]) == after
        decreases |buf| - p, Rank(control)
      {
        p := Advance(buf, p);
      }
      if control.Error? {
        RunError(keywords, View(), buf[p..]);
      }
      return if ok then Some(p) else if p != |buf| then Some(|buf|) else None;
    }
  }

  // ---- chunk independence -----------------------------------------------------------------------

  function Concat(bufs: seq<string>): string {
    if bufs == [] then [] else bufs[0] + Concat(bufs[1..])
  }

  // The state after each of a list of buffers in turn.
  function RunEach(keywords: seq<string>, s: State, bufs: seq<string>): State
    decreases |bufs|
  {
    if bufs == [] then s else RunEach(keywords, Run(keywords, s, bufs[0]), bufs[1..])
  }

  lemma {:induction false} ChunkIndependence(keywords: seq<string>, s: State, bufs: seq<string>)
    ensures RunEach(keywords, s, bufs) == Run(keywords, s, Concat(bufs))
    decreases |bufs|
  {
    if bufs != [] {
      RunAppend(keywords, s, bufs[0], Concat(bufs[1..]));
      ChunkIndependence(keywords, Run(keywords, s, bufs[0]), bufs[1..]);
    }
  }

  // The same of the driver: parsing a list of buffers in turn leaves it in the state that their
  // concatenation calls for, so however an input is cut the state is the same.
  method ParseEach(p: Parser, bufs: seq<string>)
    requires Begun(p.View()) && forall i :: 0 <= i < |bufs| ==> |bufs[i]| < MODULUS
    modifies p
    ensures p.View() == Run(p.keywords, old(p.View()), Concat(bufs)) && Begun(p.View())
  {
    ghost var after := RunEach(p.keywords, p.View(), bufs);
    ChunkIndependence(p.keywords, p.View(), bufs);
    for i := 0 to |bufs|
      invariant Begun(p.View()) && RunEach(p.keywords, p.View(), bufs[i..]) == after
    {
      ghost var s := p.View();
      assert bufs[i..][0] == bufs[i] && bufs[i..][1..] == bufs[i + 1..];
      var _ := p.Parse(bufs[i]);
    }
  }
}
