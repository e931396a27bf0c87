/** The language of the request parser: which inputs it accepts as a whole request, and what it makes
  * of them. Numerals may have leading zeros and count modulo 2^32, as in the code. */
module RespGrammar {
  import opened Options
  import opened RespParser

  const CRLF: string := "\r\n"

  // A bulk string: the numeral before it and its bytes.
  datatype Arg = Arg(size: string, content: string)

  datatype Reading = Reading(count: string, size: string, word: string, args: seq<Arg>)

  predicate AllDigits(d: string) {
    forall i :: 0 <= i < |d| ==> '0' <= d[i] <= '9'
  }

  function Value(d: string, u32: nat): nat
    requires AllDigits(d)
  {
    if d == "" then u32 else Value(d[1..], Accumulate(u32, d[0]))
  }

  predicate Numeral(d: string) {
    d != "" && AllDigits(d)
  }

  // The word is the keyword, each letter of it in either case.
  predicate Variant(word: string, keyword: string) {
    |word| == |keyword| &&
    forall j :: 0 <= j < |word| ==> word[j] == keyword[j] || word[j] as int == keyword[j] as int - 32
  }

  function ArgText(a: Arg): string {
    "$" + a.size + CRLF + (a.content + CRLF)
  }

  function ArgsText(args: seq<Arg>): string {
    if args == [] then "" else ArgText(args[0]) + ArgsText(args[1..])
  }

  function Text(r: Reading): string {
    "*" + r.count + CRLF + ("$" + r.size + CRLF + (r.word + CRLF + ArgsText(r.args)))
  }

  predicate ArgOk(a: Arg) {
    Numeral(a.size) && |a.content| == Value(a.size, 0)
  }

  // The size given for the command word need not be its size.
  predicate ReadingOk(keywords: seq<string>, r: Reading) {
    && Numeral(r.count) && Numeral(r.size)
    && (exists k :: 0 <= k < |keywords| && Variant(r.word, keywords[k]))
    && r.args != [] && forall i :: 0 <= i < |r.args| ==> ArgOk(r.args[i])
  }

  predicate Letters(w: string) {
    forall j :: 0 <= j < |w| ==> 'a' <= w[j] <= 'z'
  }

  // No alternative is empty, and all are spelled in small letters.
  predicate WordsOk(keywords: seq<string>) {
    forall k :: 0 <= k < |keywords| ==> keywords[k] != "" && Letters(keywords[k])
  }

  function Contents(args: seq<Arg>): seq<string> {
    if args == [] then [] else [args[0].content] + Contents(args[1..])
  }

  // ---- either case ---------------------------------------------------------------------------------

  // What the parser makes of a word.
  function LowerAll(word: string): (w: string)
    ensures |w| == |word| && forall j :: 0 <= j < |w| ==> w[j] == Lower(word[j])
  {
    if word == [] then [] else [Lower(word[0])] + LowerAll(word[1..])
  }

  lemma {:induction false} VariantIff(word: string, keyword: string)
    requires Letters(keyword)
    ensures Variant(word, keyword) <==> LowerAll(word) == keyword
    ensures Variant(word, keyword) ==> '\r' !in word
  {
  }

  // ---- every text of the grammar is accepted --------------------------------------------------------

  lemma {:induction false} RunDigits(keywords: seq<string>, s: State, number: Number, started: bool, d: string)
    requires s.control == Digits(number, started) && AllDigits(d)
    ensures Run(keywords, s, d) ==
            if d == "" then s else Accept(s, Digits(number, true)).(u32 := Value(d, if started then s.u32 else 0))
    decreases |d|
  {
    if d != "" { RunDigits(keywords, Step(keywords, s, d[0]), number, true, d[1..]); }
  }

  // A number with its tag and line end; an argument may follow another.
  lemma {:induction false} RunNumber(keywords: seq<string>, s: State, number: Number, d: string)
    requires s.control == Tag(number) || (s.control.Final? && number == ArgSize)
    requires Numeral(d)
    ensures Run(keywords, s, (if number == ArgsCount then "*" else "$") + d + CRLF)
            == Accept(SetNumber(s.(u32 := Value(d, 0)), number), AfterNumber(number))
    ensures var t := Run(keywords, s, (if number == ArgsCount then "*" else "$") + d + CRLF);
            && t.argsCount == (if number == ArgsCount then Value(d, 0) else s.argsCount)
            && t.argSize == (if number == ArgsCount then s.argSize else Value(d, 0))
            && t.control == if number == ArgsCount then Tag(WordSize) else if number == WordSize then Word("") else BlobStart
  {
    var tag := if number == ArgsCount then "*" else "$";
    RunAppend(keywords, s, tag + d, CRLF);
    RunAppend(keywords, s, tag, d);
    RunDigits(keywords, Step(keywords, s, tag[0]), number, false, d);
    RunLine(keywords, Run(keywords, s, tag + d));
  }

  lemma {:induction false} RunLine(keywords: seq<string>, s: State)
    ensures Run(keywords, s, CRLF) == Step(keywords, Step(keywords, s, '\r'), '\n')
  {
  }

  lemma {:induction false} RunBlob(keywords: seq<string>, s: State, blob: string)
    requires s.control.BlobStart? && s.argSize == |blob|
    ensures Run(keywords, s, blob + CRLF) == Accept(s.(sizeLeft := 0, partial := "", args := s.args + [blob]), Final)
  {
    var t := StartBlob(s);
    assert Run(keywords, s, blob + CRLF) == Run(keywords, t, blob + CRLF);
    StretchIsBytes(keywords, t, blob, CRLF);
    assert "" + blob == blob;
    RunLine(keywords, TakeStretch(t, blob));
  }

  lemma {:induction false} RunArg(keywords: seq<string>, s: State, a: Arg)
    requires (s.control == Tag(ArgSize) || s.control.Final?) && ArgOk(a)
    ensures Run(keywords, s, ArgText(a))
            == State(Final, true, |a.content|, s.argsCount, |a.content|, 0, s.command, s.args + [a.content], "")
  {
    var head := "$" + a.size + CRLF;
    RunAppend(keywords, s, head, a.content + CRLF);
    RunNumber(keywords, s, ArgSize, a.size);
    RunBlob(keywords, Run(keywords, s, head), a.content);
  }

  lemma {:induction false} RunArgs(keywords: seq<string>, s: State, args: seq<Arg>)
    requires s.control == Tag(ArgSize) || s.control.Final?
    requires forall i :: 0 <= i < |args| ==> ArgOk(args[i])
    ensures var t := Run(keywords, s, ArgsText(args));
            && t.args == s.args + Contents(args) && t.argsCount == s.argsCount && t.command == s.command
            && (args != [] ==> t.control.Final? && t.ok && t.partial == "")
    decreases |args|
  {
    if args == [] {
      assert s.args + [] == s.args;
    } else {
      var first := ArgText(args[0]);
      RunAppend(keywords, s, first, ArgsText(args[1..]));
      RunArg(keywords, s, args[0]);
      RunArgs(keywords, Run(keywords, s, first), args[1..]);
      assert s.args + Contents(args) == s.args + [args[0].content] + Contents(args[1..]);
      if |args| == 1 { assert ArgsText(args[1..]) == ""; }
    }
  }

  lemma {:induction false} RunWord(keywords: seq<string>, s: State, k: nat, typed: string, word: string)
    requires s.control == Word(typed) && k < |keywords| && keywords[k] == typed + LowerAll(word)
    requires WordsOk(keywords)
    ensures Run(keywords, s, word) ==
            if word == "" then s else Accept(s, Word(keywords[k])).(command := LastWith(keywords, keywords[k]))
    decreases |word|
  {
    if word != "" {
      var next := typed + [Lower(word[0])];
      assert keywords[k] == next + LowerAll(word[1..]);
      assert keywords[k][|typed|] == Lower(word[0]);
      assert next <= keywords[k];
      RunWord(keywords, Step(keywords, s, word[0]), k, next, word[1..]);
      if |word| == 1 { assert next + LowerAll(word[1..]) == next; }
    }
  }

  lemma {:induction false} RunWordLine(keywords: seq<string>, s: State, word: string, k: nat)
    requires s.control == Word("") && k < |keywords| && Variant(word, keywords[k]) && WordsOk(keywords)
    ensures Run(keywords, s, word + CRLF) == Accept(s, Tag(ArgSize)).(command := LastWith(keywords, keywords[k]))
  {
    VariantIff(word, keywords[k]);
    assert "" + LowerAll(word) == LowerAll(word);
    RunAppend(keywords, s, word, CRLF);
    RunWord(keywords, s, k, "", word);
    RunLine(keywords, Run(keywords, s, word));
  }

  // What the state is after a reading.
  ghost predicate ReadAs(keywords: seq<string>, t: State, r: Reading)
    requires ReadingOk(keywords, r)
  {
    && t.control.Final? && t.ok && t.partial == "" && t.args == Contents(r.args) && t.argsCount == Value(r.count, 0)
    && forall k :: 0 <= k < |keywords| && Variant(r.word, keywords[k]) ==> t.command == LastWith(keywords, keywords[k])
  }

  // Keywords of which a word is a variant are the same.
  lemma {:induction false} OneKeyword(keywords: seq<string>, word: string, k: nat, l: nat)
    requires WordsOk(keywords) && k < |keywords| && l < |keywords|
    requires Variant(word, keywords[k]) && Variant(word, keywords[l])
    ensures keywords[k] == keywords[l]
  {
    VariantIff(word, keywords[k]);
    VariantIff(word, keywords[l]);
  }

  lemma {:induction false} GrammarAccepted(keywords: seq<string>, u32: nat, command: Option<nat>, r: Reading)
    requires WordsOk(keywords) && ReadingOk(keywords, r)
    ensures ReadAs(keywords, Run(keywords, Init(u32, command), Text(r)), r)
  {
    var s, count, size := Init(u32, command), "*" + r.count + CRLF, "$" + r.size + CRLF;
    RunAppend(keywords, s, count, size + (r.word + CRLF + ArgsText(r.args)));
    RunNumber(keywords, s, ArgsCount, r.count);
    var t := Run(keywords, s, count);
    RunAppend(keywords, t, size, r.word + CRLF + ArgsText(r.args));
    RunNumber(keywords, t, WordSize, r.size);
    var u := Run(keywords, t, size);
    RunAppend(keywords, u, r.word + CRLF, ArgsText(r.args));
    var k :| 0 <= k < |keywords| && Variant(r.word, keywords[k]);
    RunWordLine(keywords, u, r.word, k);
    forall l | 0 <= l < |keywords| && Variant(r.word, keywords[l]) ensures keywords[l] == keywords[k] {
      OneKeyword(keywords, r.word, k, l);
    }
    RunArgs(keywords, Run(keywords, u, r.word + CRLF), r.args);
    assert [] + Contents(r.args) == Contents(r.args);
  }

  // ---- nothing else is accepted -----------------------------------------------------------------------

  // The input does not end here, and its first byte is not rejected.
  lemma {:induction false} Goes(keywords: seq<string>, s: State, input: string)
    requires Run(keywords, s, input).control.Final? && !s.control.Final?
    ensures input != "" && !Step(keywords, s, input[0]).control.Error?
    ensures Run(keywords, s, input) == Run(keywords, Step(keywords, s, input[0]), input[1..])
  {
    if input != "" && Step(keywords, s, input[0]).control.Error? {
      RunError(keywords, Step(keywords, s, input[0]), input[1..]);
    }
  }

  lemma {:induction false} PeelDigits(keywords: seq<string>, s: State, number: Number, started: bool, input: string)
    returns (d: string, rest: string)
    requires s.control == Digits(number, started) && Run(keywords, s, input).control.Final?
    ensures input == d + CRLF + rest && AllDigits(d) && (started || d != "")
    ensures Run(keywords, s, input) ==
            var u32 := if d == "" then s.u32 else Value(d, if started then s.u32 else 0);
            Run(keywords, Accept(SetNumber(s.(u32 := u32), number), AfterNumber(number)), rest)
    decreases |input|
  {
    Goes(keywords, s, input);
    var t := Step(keywords, s, input[0]);
    if IsDigit(input[0]) {
      d, rest := PeelDigits(keywords, t, number, true, input[1..]);
      d := [input[0]] + d;
      assert d[1..] + CRLF + rest == input[1..];
    } else {
      Goes(keywords, t, input[1..]);
      d, rest := "", input[2..];
    }
  }

  lemma {:induction false} PeelNumber(keywords: seq<string>, s: State, number: Number, input: string)
    returns (d: string, rest: string)
    requires s.control == Tag(number) || (s.control.Final? && number == ArgSize && input != "")
    requires Run(keywords, s, input).control.Final?
    ensures input == (if number == ArgsCount then "*" else "$") + d + CRLF + rest && Numeral(d)
    ensures Run(keywords, s, input) ==
            Run(keywords, Accept(SetNumber(s.(u32 := Value(d, 0)), number), AfterNumber(number)), rest)
  {
    var t := Step(keywords, s, input[0]);
    if t.control.Error? { RunError(keywords, t, input[1..]); }
    d, rest := PeelDigits(keywords, t, number, false, input[1..]);
  }

  lemma {:induction false} LowerMore(typed: string, c: char, word: string)
    ensures typed + [Lower(c)] + LowerAll(word) == typed + LowerAll([c] + word)
    ensures typed + LowerAll("") == typed
  {
    assert LowerAll([c] + word) == [Lower(c)] + LowerAll(word);
  }

  lemma {:induction false} PeelWord(keywords: seq<string>, s: State, typed: string, input: string)
    returns (word: string, rest: string)
    requires s.control == Word(typed) && Run(keywords, s, input).control.Final?
    ensures input == word + CRLF + rest && typed + LowerAll(word) in keywords
    ensures Run(keywords, s, input) ==
            var last := if word == "" then s.command else LastWith(keywords, typed + LowerAll(word));
            Run(keywords, Accept(s, Tag(ArgSize)).(command := last), rest)
    decreases |input|
  {
    Goes(keywords, s, input);
    var t := Step(keywords, s, input[0]);
    if t.control.WordLf? {
      rest := PeelLf(keywords, t, input[1..]);
      word := "";
      LowerMore(typed, 'x', "");
    } else {
      var next := typed + [Lower(input[0])];
      var tail;
      tail, rest := PeelWord(keywords, t, next, input[1..]);
      word := [input[0]] + tail;
      LowerMore(typed, input[0], tail);
      LowerMore(next, 'x', "");
    }
  }

  lemma {:induction false} PeelLf(keywords: seq<string>, s: State, input: string) returns (rest: string)
    requires s.control.WordLf? && Run(keywords, s, input).control.Final?
    ensures input == "\n" + rest && Run(keywords, s, input) == Run(keywords, Accept(s, Tag(ArgSize)), rest)
  {
    Goes(keywords, s, input);
    rest := input[1..];
  }

  lemma {:induction false} BlobGoesOn(keywords: seq<string>, s: State, input: string)
    requires s.control.Blob? && Run(keywords, s, input).control.Final?
    ensures |input| > s.sizeLeft
  {
    Goes(keywords, s, input);
    assert input + "" == input;
    if |input| <= s.sizeLeft { StretchIsBytes(keywords, s, input, ""); }
  }

  lemma {:induction false} PeelLine(keywords: seq<string>, s: State, input: string) returns (rest: string)
    requires s.control.BlobCr? && Run(keywords, s, input).control.Final?
    ensures input == CRLF + rest && Run(keywords, s, input) == Run(keywords, Accept(s, Final), rest)
  {
    Goes(keywords, s, input);
    Goes(keywords, Step(keywords, s, input[0]), input[1..]);
    rest := input[2..];
  }

  lemma {:induction false} PeelBlob(keywords: seq<string>, s: State, input: string) returns (blob: string, rest: string)
    requires s.control.BlobStart? && Run(keywords, s, input).control.Final?
    ensures input == blob + CRLF + rest && |blob| == s.argSize
    ensures Run(keywords, s, input) ==
            Run(keywords, Accept(s.(sizeLeft := 0, partial := "", args := s.args + [blob]), Final), rest)
  {
    Goes(keywords, s, input);
    var t := StartBlob(s);
    assert Run(keywords, s, input) == Run(keywords, t, input);
    BlobGoesOn(keywords, t, input);
    blob := input[..s.argSize];
    StretchIsBytes(keywords, t, blob, input[s.argSize..]);
    assert blob + input[s.argSize..] == input && "" + blob == blob;
    rest := PeelLine(keywords, TakeStretch(t, blob), input[s.argSize..]);
  }

  lemma {:induction false} PeelArgs(keywords: seq<string>, s: State, input: string) returns (args: seq<Arg>)
    requires (s.control == Tag(ArgSize) || s.control.Final?) && Run(keywords, s, input).control.Final?
    ensures input == ArgsText(args) && forall i :: 0 <= i < |args| ==> ArgOk(args[i])
    ensures s.control == Tag(ArgSize) ==> args != []
    decreases |input|
  {
    if input == "" {
      args := [];
    } else {
      var size, tail := PeelNumber(keywords, s, ArgSize, input);
      var t := Accept(SetNumber(s.(u32 := Value(size, 0)), ArgSize), BlobStart);
      var blob, rest := PeelBlob(keywords, t, tail);
      var u := Accept(t.(sizeLeft := 0, partial := "", args := t.args + [blob]), Final);
      var others := PeelArgs(keywords, u, rest);
      args := [Arg(size, blob)] + others;
      assert args[1..] == others;
      assert input == ArgText(args[0]) + ArgsText(others);
    }
  }

  lemma {:induction false} OnlyGrammarAccepted(keywords: seq<string>, u32: nat, command: Option<nat>, input: string)
    returns (r: Reading)
    requires WordsOk(keywords) && Run(keywords, Init(u32, command), input).control.Final?
    ensures ReadingOk(keywords, r) && input == Text(r)
  {
    var s := Init(u32, command);
    var count, rest1 := PeelNumber(keywords, s, ArgsCount, input);
    var t := Accept(SetNumber(s.(u32 := Value(count, 0)), ArgsCount), Tag(WordSize));
    var size, rest2 := PeelNumber(keywords, t, WordSize, rest1);
    var u := Accept(SetNumber(t.(u32 := Value(size, 0)), WordSize), Word(""));
    var word, rest3 := PeelWord(keywords, u, "", rest2);
    assert "" + LowerAll(word) == LowerAll(word);
    var last := if word == "" then u.command else LastWith(keywords, LowerAll(word));
    var args := PeelArgs(keywords, Accept(u, Tag(ArgSize)).(command := last), rest3);
    r := Reading(count, size, word, args);
    var k :| 0 <= k < |keywords| && keywords[k] == LowerAll(word);
    VariantIff(word, keywords[k]);
    assert rest1 == "$" + size + CRLF + (word + CRLF + ArgsText(args));
    assert input == "*" + count + CRLF + rest1;
  }

  // The parser ends an input as a whole request if and only if the input is a text of the
  // grammar, and then it holds what the text says.
  lemma {:induction false} Language(keywords: seq<string>, u32: nat, command: Option<nat>, input: string)
    requires WordsOk(keywords)
    ensures Run(keywords, Init(u32, command), input).control.Final? <==>
            exists r :: ReadingOk(keywords, r) && input == Text(r)
    ensures forall r :: ReadingOk(keywords, r) && input == Text(r) ==>
              ReadAs(keywords, Run(keywords, Init(u32, command), input), r)
  {
    forall r | ReadingOk(keywords, r) && input == Text(r)
      ensures ReadAs(keywords, Run(keywords, Init(u32, command), input), r)
    {
      GrammarAccepted(keywords, u32, command, r);
    }
    if Run(keywords, Init(u32, command), input).control.Final? {
      var r := OnlyGrammarAccepted(keywords, u32, command, input);
    }
  }

  // ---- the word line of any input --------------------------------------------------------------------

  lemma {:induction false} FirstCr(a: string, x: string, b: string, y: string)
    requires '\r' !in a && '\r' !in b && a + "\r" + x == b + "\r" + y
    ensures a == b && x == y
  {
    var s, t := a + "\r" + x, b + "\r" + y;
    assert s[|a|] == '\r' && t[|b|] == '\r';
    assert forall i :: 0 <= i < |a| ==> s[i] == a[i];
    assert forall i :: 0 <= i < |b| ==> t[i] == b[i];
    assert a == s[..|a|] && b == t[..|b|] && x == s[|a| + 1..] && y == t[|b| + 1..];
  }

  lemma {:induction false} FirstLine(a: string, x: string, b: string, y: string)
    requires '\r' !in a && '\r' !in b && a + CRLF + x == b + CRLF + y
    ensures a == b && x == y
  {
    assert a + CRLF + x == a + "\r" + ("\n" + x) && b + CRLF + y == b + "\r" + ("\n" + y);
    FirstCr(a, "\n" + x, b, "\n" + y);
    assert x == ("\n" + x)[1..] && y == ("\n" + y)[1..];
  }

  // No input is accepted unless what it has between the second line end and the next CR is a
  // keyword in either case.
  lemma {:induction false} OnlyVariantsAccepted(keywords: seq<string>, u32: nat, command: Option<nat>,
                                                count: string, size: string, word: string, rest: string)
    requires WordsOk(keywords) && '\r' !in count && '\r' !in size && '\r' !in word
    requires Run(keywords, Init(u32, command), count + CRLF + (size + CRLF + (word + "\r" + rest))).control.Final?
    ensures exists k :: 0 <= k < |keywords| && Variant(word, keywords[k])
  {
    var input := count + CRLF + (size + CRLF + (word + "\r" + rest));
    var r := OnlyGrammarAccepted(keywords, u32, command, input);
    var k :| 0 <= k < |keywords| && Variant(r.word, keywords[k]);
    VariantIff(r.word, keywords[k]);
    var line := r.word + CRLF + ArgsText(r.args);
    FirstLine(count, size + CRLF + (word + "\r" + rest), "*" + r.count, "$" + r.size + CRLF + line);
    FirstLine(size, word + "\r" + rest, "$" + r.size, line);
    assert line == r.word + "\r" + ("\n" + ArgsText(r.args));
    FirstCr(word, rest, r.word, "\n" + ArgsText(r.args));
  }
}
