/** include/reply_builder.hh: the printer of bulk strings in the Redis serialization protocol (RESP),
  * and what the request parser makes of a request printed with it. */
module RespPrinter {
  import opened Options
  import opened RespParser
  import opened RespGrammar

  function Digit(d: nat): (c: char)
    requires d < 10
    ensures IsDigit(c) && c as int - '0' as int == d
  {
    ('0' as int + d) as char
  }

  // to_sstring
  function Decimal(n: nat): (s: string)
    ensures s != []
  {
    if n < 10 then [Digit(n)] else Decimal(n / 10) + [Digit(n % 10)]
  }

  function BuildDirect(message: string, size: nat): string {
    "$" + Decimal(size) + CRLF + message + CRLF
  }

  function BuildAll(messages: seq<string>): string {
    if messages == [] then [] else BuildDirect(messages[0], |messages[0]|) + BuildAll(messages[1..])
  }

  // A request in the form of the section "Arrays" of the RESP specification.
  function Request(count: nat, word: string, args: seq<string>): string {
    "*" + Decimal(count) + CRLF + BuildDirect(word, |word|) + BuildAll(args)
  }

  // ---- numbers ----------------------------------------------------------------------------------

  lemma {:induction false} ModShift(n: nat, k: nat, x: nat)
    requires n == k * 0x1_0000_0000 + x
    ensures n % 0x1_0000_0000 == x % 0x1_0000_0000
  {
  }

  lemma {:induction false} AccumulateDigit(n: nat)
    ensures Accumulate(n / 10 % MODULUS, Digit(n % 10)) == n % MODULUS
  {
    var r := n / 10 % MODULUS * 10;
    ModShift(n, n / 10 / MODULUS * 10 + r / MODULUS, r % MODULUS + n % 10);
  }

  lemma {:induction false} ValueSnoc(d: string, c: char, u32: nat)
    requires AllDigits(d) && IsDigit(c)
    ensures AllDigits(d + [c]) && Value(d + [c], u32) == Accumulate(Value(d, u32), c)
    decreases |d|
  {
    if d == "" {
      assert d + [c] == [c];
    } else {
      assert (d + [c])[1..] == d[1..] + [c];
      ValueSnoc(d[1..], c, Accumulate(u32, d[0]));
    }
  }

  // The decimal form of a number is read as the number, modulo 2^32.
  lemma {:induction false} DecimalValue(n: nat)
    ensures Numeral(Decimal(n)) && Value(Decimal(n), 0) == n % MODULUS
  {
    if n < 10 {
      ValueSnoc("", Digit(n), 0);
      assert "" + [Digit(n)] == Decimal(n);
    } else {
      DecimalValue(n / 10);
      ValueSnoc(Decimal(n / 10), Digit(n % 10), 0);
      AccumulateDigit(n);
    }
  }

  // What a decimal numeral stands for.
  function Count(d: string): nat
    requires AllDigits(d)
  {
    if d == "" then 0 else Count(d[..|d| - 1]) * 10 + (d[|d| - 1] as int - '0' as int)
  }

  // The decimal form is that of the number, without leading zeros.
  lemma {:induction false} DecimalCount(n: nat)
    ensures AllDigits(Decimal(n)) && Count(Decimal(n)) == n
    ensures Decimal(n) != "" && (Decimal(n)[0] == '0' ==> n == 0 && |Decimal(n)| == 1)
  {
    if n >= 10 {
      DecimalCount(n / 10);
      assert Decimal(n)[..|Decimal(n)| - 1] == Decimal(n / 10);
    } else {
      assert Decimal(n)[..0] == "";
    }
  }

  // ---- the parser undoes the printer ------------------------------------------------------------

  function Printed(messages: seq<string>): (args: seq<Arg>)
    ensures |args| == |messages|
  {
    if messages == [] then [] else [Arg(Decimal(|messages[0]|), messages[0])] + Printed(messages[1..])
  }

  lemma {:induction false} PrintedText(messages: seq<string>)
    requires forall i :: 0 <= i < |messages| ==> |messages[i]| < MODULUS
    ensures ArgsText(Printed(messages)) == BuildAll(messages) && Contents(Printed(messages)) == messages
    ensures forall i :: 0 <= i < |messages| ==> ArgOk(Printed(messages)[i])
  {
    if messages != [] {
      var m := messages[0];
      PrintedText(messages[1..]);
      assert BuildDirect(m, |m|) == ArgText(Arg(Decimal(|m|), m));
      DecimalValue(|m|);
      Small(|m|);
      assert Printed(messages)[1..] == Printed(messages[1..]);
    }
  }

  lemma {:induction false} Small(n: nat)
    requires n < MODULUS
    ensures n % MODULUS == n
  {
  }

  lemma {:induction false} Regroup(a: string, b: string, c: string, d: string, e: string)
    ensures a + (b + c + d) + e == a + (b + (c + d + e))
  {
  }

  // Any request printed with a word of the grammar, in either case, and at least one argument,
  // is read back: the arguments are exactly the ones printed, and the command is the last
  // alternative that begins with the word.
  lemma {:induction false} ParserUndoesPrinter(keywords: seq<string>, u32: nat, command: Option<nat>, count: nat,
                                               k: nat, word: string, args: seq<string>)
    requires WordsOk(keywords) && k < |keywords| && Variant(word, keywords[k])
    requires args != [] && forall i :: 0 <= i < |args| ==> |args[i]| < MODULUS
    ensures var t := Run(keywords, Init(u32, command), Request(count, word, args));
            && t.control.Final? && t.ok && t.args == args && t.argsCount == count % MODULUS && t.partial == ""
            && t.command == LastWith(keywords, keywords[k])
  {
    var r := Reading(Decimal(count), Decimal(|word|), word, Printed(args));
    DecimalValue(count);
    DecimalValue(|word|);
    PrintedText(args);
    Regroup("*" + Decimal(count) + CRLF, "$" + Decimal(|word|) + CRLF, word, CRLF, BuildAll(args));
    assert Text(r) == Request(count, word, args);
    GrammarAccepted(keywords, u32, command, r);
  }

  // However the printed request is cut into buffers.
  lemma {:induction false} ParserUndoesPrinterInChunks(keywords: seq<string>, u32: nat, command: Option<nat>,
                                                       k: nat, word: string, args: seq<string>, bufs: seq<string>)
    requires WordsOk(keywords) && k < |keywords| && Variant(word, keywords[k])
    requires args != [] && forall i :: 0 <= i < |args| ==> |args[i]| < MODULUS
    requires |args| + 1 < MODULUS && Concat(bufs) == Request(|args| + 1, word, args)
    ensures var t := RunEach(keywords, Init(u32, command), bufs);
            && t.control.Final? && t.args == args && t.argsCount == |args| + 1
            && t.command == LastWith(keywords, keywords[k])
  {
    Small(|args| + 1);
    ChunkIndependence(keywords, Init(u32, command), bufs);
    ParserUndoesPrinter(keywords, u32, command, |args| + 1, k, word, args);
  }

  // ---- words that are no keyword ------------------------------------------------------------------

  // A word up to its first CR.
  function BeforeCr(word: string): (w: string)
    ensures '\r' !in w && w <= word && (w != word ==> word[|w|] == '\r')
  {
    if word == "" || word[0] == '\r' then "" else [word[0]] + BeforeCr(word[1..])
  }

  // A printed request is accepted only if its word, up to the first CR in it, is a keyword in
  // either case; so a word without a CR is accepted if and only if it is one.
  lemma {:induction false} PrintedAccepted(keywords: seq<string>, u32: nat, command: Option<nat>, count: nat,
                                           word: string, args: seq<string>)
    requires WordsOk(keywords) && args != [] && forall i :: 0 <= i < |args| ==> |args[i]| < MODULUS
    ensures var t := Run(keywords, Init(u32, command), Request(count, word, args));
            && (t.control.Final? ==> exists k :: 0 <= k < |keywords| && Variant(BeforeCr(word), keywords[k]))
            && ('\r' !in word ==>
                  (t.control.Final? <==> exists k :: 0 <= k < |keywords| && Variant(word, keywords[k])))
  {
    var t, w := Run(keywords, Init(u32, command), Request(count, word, args)), BeforeCr(word);
    if t.control.Final? {
      DecimalValue(count);
      DecimalValue(|word|);
      var tail := word[|w|..] + CRLF + BuildAll(args);
      assert tail == "\r" + tail[1..] && word == w + word[|w|..];
      SplitLines("*" + Decimal(count), "$" + Decimal(|word|), word, w, BuildAll(args), tail[1..]);
      OnlyVariantsAccepted(keywords, u32, command, "*" + Decimal(count), "$" + Decimal(|word|), w, tail[1..]);
    }
    if k :| 0 <= k < |keywords| && Variant(word, keywords[k]) {
      ParserUndoesPrinter(keywords, u32, command, count, k, word, args);
    }
  }

  lemma {:induction false} SplitLines(a: string, b: string, word: string, w: string, c: string, rest: string)
    requires w <= word && word[|w|..] + CRLF + c == "\r" + rest
    ensures a + CRLF + (b + CRLF + word + CRLF) + c == a + CRLF + (b + CRLF + (w + "\r" + rest))
  {
    assert word == w + word[|w|..];
    assert word + CRLF + c == w + ("\r" + rest);
    assert a + CRLF + (b + CRLF + word + CRLF) + c == a + CRLF + (b + CRLF + (word + CRLF + c));
  }

  // With a CR in it, a word that is no keyword can be accepted: a keyword with a printed string
  // after it is read as the keyword and one more argument.
  lemma {:induction false} WordWithCr(keywords: seq<string>, u32: nat, command: Option<nat>, count: nat,
                                      k: nat, word: string, first: string, args: seq<string>)
    requires WordsOk(keywords) && k < |keywords| && Variant(word, keywords[k])
    requires |first| < MODULUS && forall i :: 0 <= i < |args| ==> |args[i]| < MODULUS
    ensures var long := word + CRLF + ("$" + Decimal(|first|) + CRLF + first);
            var t := Run(keywords, Init(u32, command), Request(count, long, args));
            t.control.Final? && t.args == [first] + args
  {
    var all, head := [first] + args, "$" + Decimal(|first|) + CRLF + first;
    var long := word + CRLF + head;
    var r := Reading(Decimal(count), Decimal(|long|), word, Printed(all));
    DecimalValue(count);
    DecimalValue(|long|);
    PrintedText(all);
    assert BuildAll(all) == head + CRLF + BuildAll(args) by { assert all[1..] == args; }
    Regroup("*" + Decimal(count) + CRLF, "$" + Decimal(|long|) + CRLF, long, CRLF, BuildAll(args));
    Split(word, head, BuildAll(args));
    assert Text(r) == Request(count, long, args);
    GrammarAccepted(keywords, u32, command, r);
  }

  lemma {:induction false} Split(word: string, head: string, rest: string)
    ensures word + CRLF + head + CRLF + rest == word + CRLF + (head + CRLF + rest)
  {
  }
}
