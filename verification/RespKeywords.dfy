/** The alternatives of the command word in include/redis_protocol_parser.rl, and which of them a typed
  * word ends as. */
module RespKeywords {
  import opened Options
  import opened RespParser
  import opened RespGrammar
  import opened RespPrinter

  // The word of alternative `k` ends as that alternative if and only if no later one begins with it.
  lemma {:induction false} CommandKept(keywords: seq<string>, k: nat)
    requires k < |keywords|
    ensures LastWith(keywords, keywords[k]) == Some(k) <==>
            forall i :: k < i < |keywords| ==> !(keywords[k] <= keywords[i])
  {
    var last := LastWith(keywords, keywords[k]);
    if last.value != k { assert keywords[k] <= keywords[last.value]; }
  }

  // The alternatives of the grammar in the order of their union. The one for zdiff is spelled "zunion".
  const ROW0: seq<string> := [
    "quit", "info", "js", "setbit", "set", "getbit", "get",
    "del", "mget", "mset", "echo", "ping", "incr"]
  const ROW1: seq<string> := [
    "decr", "incrby", "decrby", "command", "exists", "append", "strlen",
    "lpushx", "lpush", "lpop", "llen", "lindex", "linsert"]
  const ROW2: seq<string> := [
    "lrange", "lset", "rpushx", "rpush", "rpop", "lrem", "ltrim",
    "hset", "hgetall", "hget", "hdel", "hlen", "hexists"]
  const ROW3: seq<string> := [
    "hstrlen", "hincrby", "hincrbyfloat", "hkeys", "hvals", "hmget", "hmset",
    "sadd", "scard", "sismember", "smembers", "srem", "sdiffstore"]
  const ROW4: seq<string> := [
    "sdiff", "sinterstore", "sinter", "sunionstore", "sunion", "smove", "srandmember",
    "spop", "type", "expire", "pexpire", "persist", "ttl"]
  const ROW5: seq<string> := [
    "pttl", "zadd", "zcard", "zcount", "zincrby", "zrangebyscore", "zrank",
    "zremrangebyrank", "zremrangebyscore", "zremrangebylex", "zrem", "zrevrangebyscore", "zrevrange"]
  const ROW6: seq<string> := [
    "zrevrank", "zscore", "zunionstore", "zinterstore", "zdiffstore", "zunion", "zinter",
    "zunion", "zscan", "zrangebylex", "zlexcount", "zrange", "select"]
  const ROW7: seq<string> := [
    "geoadd", "geodist", "geohash", "geopos", "georadiusbymember", "georadius", "bitcount",
    "bitpos", "bitop", "bitfield", "pfadd", "pfcount", "pfmerge"]
  const ROWS: seq<seq<string>> := [ROW0, ROW1, ROW2, ROW3, ROW4, ROW5, ROW6, ROW7]

  function Joined(rows: seq<seq<string>>): seq<string> {
    if rows == [] then [] else Joined(rows[..|rows| - 1]) + rows[|rows| - 1]
  }

  const KEYWORDS: seq<string> := Joined(ROWS)

  // The place of word `j` of row `r` is 13 * r + j.
  lemma {:induction false} JoinedAt(rows: seq<seq<string>>, k: nat)
    requires forall r :: 0 <= r < |rows| ==> |rows[r]| == 13
    ensures |Joined(rows)| == 13 * |rows|
    ensures k < 13 * |rows| ==> Joined(rows)[k] == rows[k / 13][k % 13]
  {
    if rows != [] { JoinedAt(rows[..|rows| - 1], k); }
  }

  lemma {:induction false} RowLengths()
    ensures |ROWS| == 8 && forall r :: 0 <= r < 8 ==> |ROWS[r]| == 13
  {
  }

  lemma {:induction false} Place(k: nat)
    requires k < 104
    ensures |ROWS| == 8 && |ROWS[k / 13]| == 13 && |KEYWORDS| == 104 && KEYWORDS[k] == ROWS[k / 13][k % 13]
  {
    RowLengths();
    JoinedAt(ROWS, k);
  }

  // ---- which alternatives begin which others ------------------------------------------------------

  // The first of two words is longer, or they differ in one of the first five letters: a reason
  // why it does not begin the second.
  predicate Differ(w: string, v: string) {
    |w| > |v| ||
    (|w| > 0 && (w[0] != v[0] ||
    (|w| > 1 && (w[1] != v[1] ||
    (|w| > 2 && (w[2] != v[2] ||
    (|w| > 3 && (w[3] != v[3] ||
    (|w| > 4 && w[4] != v[4])))))))))
  }

  predicate Apart(a: seq<string>, j: nat, b: seq<string>, l: nat) {
    j < |a| && l < |b| && Differ(a[j], b[l])
  }

  lemma {:induction false} Rows00(j: nat, l: nat) requires j < l < 13 ensures Apart(ROW0, j, ROW0, l) {}
  lemma {:induction false} Rows01(j: nat, l: nat)
    requires j < 13 && l < 13 && (j != 12 || l != 1)
    ensures Apart(ROW0, j, ROW1, l)
  {
  }
  lemma {:induction false} Rows02(j: nat, l: nat) requires j < 13 && l < 13 ensures Apart(ROW0, j, ROW2, l) {}
  lemma {:induction false} Rows03(j: nat, l: nat) requires j < 13 && l < 13 ensures Apart(ROW0, j, ROW3, l) {}
  lemma {:induction false} Rows04(j: nat, l: nat) requires j < 13 && l < 13 ensures Apart(ROW0, j, ROW4, l) {}
  lemma {:induction false} Rows05(j: nat, l: nat) requires j < 13 && l < 13 ensures Apart(ROW0, j, ROW5, l) {}
  lemma {:induction false} Rows06(j: nat, l: nat) requires j < 13 && l < 13 ensures Apart(ROW0, j, ROW6, l) {}
  lemma {:induction false} Rows07(j: nat, l: nat) requires j < 13 && l < 13 ensures Apart(ROW0, j, ROW7, l) {}
  lemma {:induction false} Rows11(j: nat, l: nat)
    requires j < l < 13 && (j != 0 || l != 2)
    ensures Apart(ROW1, j, ROW1, l)
  {
  }
  lemma {:induction false} Rows12(j: nat, l: nat) requires j < 13 && l < 13 ensures Apart(ROW1, j, ROW2, l) {}
  lemma {:induction false} Rows13(j: nat, l: nat) requires j < 13 && l < 13 ensures Apart(ROW1, j, ROW3, l) {}
  lemma {:induction false} Rows14(j: nat, l: nat) requires j < 13 && l < 13 ensures Apart(ROW1, j, ROW4, l) {}
  lemma {:induction false} Rows15(j: nat, l: nat) requires j < 13 && l < 13 ensures Apart(ROW1, j, ROW5, l) {}
  lemma {:induction false} Rows16(j: nat, l: nat) requires j < 13 && l < 13 ensures Apart(ROW1, j, ROW6, l) {}
  lemma {:induction false} Rows17(j: nat, l: nat) requires j < 13 && l < 13 ensures Apart(ROW1, j, ROW7, l) {}
  lemma {:induction false} Rows22(j: nat, l: nat) requires j < l < 13 ensures Apart(ROW2, j, ROW2, l) {}
  lemma {:induction false} Rows23(j: nat, l: nat) requires j < 13 && l < 13 ensures Apart(ROW2, j, ROW3, l) {}
  lemma {:induction false} Rows24(j: nat, l: nat) requires j < 13 && l < 13 ensures Apart(ROW2, j, ROW4, l) {}
  lemma {:induction false} Rows25(j: nat, l: nat) requires j < 13 && l < 13 ensures Apart(ROW2, j, ROW5, l) {}
  lemma {:induction false} Rows26(j: nat, l: nat) requires j < 13 && l < 13 ensures Apart(ROW2, j, ROW6, l) {}
  lemma {:induction false} Rows27(j: nat, l: nat) requires j < 13 && l < 13 ensures Apart(ROW2, j, ROW7, l) {}
  lemma {:induction false} Rows33(j: nat, l: nat)
    requires j < l < 13 && (j != 1 || l != 2)
    ensures Apart(ROW3, j, ROW3, l)
  {
  }
  lemma {:induction false} Rows34(j: nat, l: nat) requires j < 13 && l < 13 ensures Apart(ROW3, j, ROW4, l) {}
  lemma {:induction false} Rows35(j: nat, l: nat) requires j < 13 && l < 13 ensures Apart(ROW3, j, ROW5, l) {}
  lemma {:induction false} Rows36(j: nat, l: nat) requires j < 13 && l < 13 ensures Apart(ROW3, j, ROW6, l) {}
  lemma {:induction false} Rows37(j: nat, l: nat) requires j < 13 && l < 13 ensures Apart(ROW3, j, ROW7, l) {}
  lemma {:induction false} Rows44(j: nat, l: nat) requires j < l < 13 ensures Apart(ROW4, j, ROW4, l) {}
  lemma {:induction false} Rows45(j: nat, l: nat) requires j < 13 && l < 13 ensures Apart(ROW4, j, ROW5, l) {}
  lemma {:induction false} Rows46(j: nat, l: nat) requires j < 13 && l < 13 ensures Apart(ROW4, j, ROW6, l) {}
  lemma {:induction false} Rows47(j: nat, l: nat) requires j < 13 && l < 13 ensures Apart(ROW4, j, ROW7, l) {}
  lemma {:induction false} Rows55(j: nat, l: nat)
    requires j < l < 13 && (j != 7 || l != 8)
    ensures Apart(ROW5, j, ROW5, l)
  {
  }
  lemma {:induction false} Rows56(j: nat, l: nat) requires j < 13 && l < 13 ensures Apart(ROW5, j, ROW6, l) {}
  lemma {:induction false} Rows57(j: nat, l: nat) requires j < 13 && l < 13 ensures Apart(ROW5, j, ROW7, l) {}
  lemma {:induction false} Rows66(j: nat, l: nat)
    requires j < l < 13 && (j != 5 || l != 7)
    ensures Apart(ROW6, j, ROW6, l)
  {
  }
  lemma {:induction false} Rows67(j: nat, l: nat) requires j < 13 && l < 13 ensures Apart(ROW6, j, ROW7, l) {}
  lemma {:induction false} Rows77(j: nat, l: nat) requires j < l < 13 ensures Apart(ROW7, j, ROW7, l) {}

  // The four pairs in which an alternative begins a later one.
  predicate Prefixed(k: nat, i: nat) {
    (k == 12 && i == 14) || (k == 13 && i == 15) || (k == 40 && i == 41) || (k == 83 && i == 85)
  }

  // Five letters do not tell these two apart.
  lemma {:induction false} TwoOfOneRange()
    ensures |ROW5| == 13 && !(ROW5[7] <= ROW5[8])
  {
    assert ROW5[7][11] == 'r' && ROW5[8][11] == 's';
  }

  lemma {:induction false} RowsDifferFirst(r: nat, t: nat, j: nat, l: nat)
    requires r < 2 && r <= t < 8 == |ROWS| && j < 13 == |ROWS[r]| && l < 13 == |ROWS[t]| && (r == t ==> j < l)
    requires !Prefixed(13 * r + j, 13 * t + l)
    ensures !(ROWS[r][j] <= ROWS[t][l])
  {
    match 8 * r + t
    case 0 => Rows00(j, l);
    case 1 => Rows01(j, l);
    case 2 => Rows02(j, l);
    case 3 => Rows03(j, l);
    case 4 => Rows04(j, l);
    case 5 => Rows05(j, l);
    case 6 => Rows06(j, l);
    case 7 => Rows07(j, l);
    case 9 => Rows11(j, l);
    case 10 => Rows12(j, l);
    case 11 => Rows13(j, l);
    case 12 => Rows14(j, l);
    case 13 => Rows15(j, l);
    case 14 => Rows16(j, l);
    case _ => Rows17(j, l);
  }

  lemma {:induction false} RowsDifferNext(r: nat, t: nat, j: nat, l: nat)
    requires 2 <= r < 4 && r <= t < 8 == |ROWS| && j < 13 == |ROWS[r]| && l < 13 == |ROWS[t]| && (r == t ==> j < l)
    requires !Prefixed(13 * r + j, 13 * t + l)
    ensures !(ROWS[r][j] <= ROWS[t][l])
  {
    match 8 * r + t
    case 18 => Rows22(j, l);
    case 19 => Rows23(j, l);
    case 20 => Rows24(j, l);
    case 21 => Rows25(j, l);
    case 22 => Rows26(j, l);
    case 23 => Rows27(j, l);
    case 27 => Rows33(j, l);
    case 28 => Rows34(j, l);
    case 29 => Rows35(j, l);
    case 30 => Rows36(j, l);
    case _ => Rows37(j, l);
  }

  lemma {:induction false} RowsDifferLast(r: nat, t: nat, j: nat, l: nat)
    requires 4 <= r && r <= t < 8 == |ROWS| && j < 13 == |ROWS[r]| && l < 13 == |ROWS[t]| && (r == t ==> j < l)
    requires !Prefixed(13 * r + j, 13 * t + l)
    ensures !(ROWS[r][j] <= ROWS[t][l])
  {
    if r == t == 5 && j == 7 && l == 8 {
      TwoOfOneRange();
      return;
    }
    match 8 * r + t
    case 36 => Rows44(j, l);
    case 37 => Rows45(j, l);
    case 38 => Rows46(j, l);
    case 39 => Rows47(j, l);
    case 45 => Rows55(j, l);
    case 46 => Rows56(j, l);
    case 47 => Rows57(j, l);
    case 54 => Rows66(j, l);
    case 55 => Rows67(j, l);
    case _ => Rows77(j, l);
  }

  lemma {:induction false} RowsDiffer(r: nat, t: nat, j: nat, l: nat)
    requires r <= t < 8 == |ROWS| && j < 13 == |ROWS[r]| && l < 13 == |ROWS[t]| && (r == t ==> j < l)
    requires !Prefixed(13 * r + j, 13 * t + l)
    ensures !(ROWS[r][j] <= ROWS[t][l])
  {
    if r < 2 {
      RowsDifferFirst(r, t, j, l);
    } else if r < 4 {
      RowsDifferNext(r, t, j, l);
    } else {
      RowsDifferLast(r, t, j, l);
    }
  }

  // No other alternative begins a later one.
  lemma {:induction false} OnlyFourPrefixed(k: nat, i: nat)
    requires k < i < 104
    ensures |KEYWORDS| == 104 && (KEYWORDS[k] <= KEYWORDS[i] <==> Prefixed(k, i))
  {
    Place(k);
    Place(i);
    if Prefixed(k, i) {
      FourPrefixes();
    } else {
      RowsDiffer(k / 13, i / 13, k % 13, i % 13);
    }
  }

  lemma {:induction false} FourPrefixes()
    ensures |ROW0| == |ROW1| == |ROW3| == |ROW6| == 13
    ensures ROW0[12] <= ROW1[1] && ROW1[0] <= ROW1[2] && ROW3[1] <= ROW3[2] && ROW6[5] <= ROW6[7]
  {
  }

  // The alternative that the word of alternative `k` ends as.
  function EndsAs(k: nat): nat {
    if k == 12 then 14 else if k == 13 then 15 else if k == 40 then 41 else if k == 83 then 85 else k
  }

  // Every keyword ends as its own command but four, and no more than four: incr, decr, hincrby
  // and the first zunion.
  lemma {:induction false} WhichCommand(k: nat)
    requires k < 104
    ensures |KEYWORDS| == 104 && EndsAs(k) < 104 && LastWith(KEYWORDS, KEYWORDS[k]) == Some(EndsAs(k))
    ensures LastWith(KEYWORDS, KEYWORDS[k]) == Some(k) <==> k !in {12, 13, 40, 83}
  {
    Place(k);
    var m := LastWith(KEYWORDS, KEYWORDS[k]).value;
    if k < m { OnlyFourPrefixed(k, m); }
    if k < EndsAs(k) { OnlyFourPrefixed(k, EndsAs(k)); }
  }

  // Typing incr ends as incrby.
  lemma {:induction false} IncrLost()
    ensures |KEYWORDS| == 104 && KEYWORDS[12] == "incr" && KEYWORDS[14] == "incrby"
    ensures LastWith(KEYWORDS, "incr") == Some(14)
  {
    Place(12);
    Place(14);
    WhichCommand(12);
  }

  // Typing decr ends as decrby.
  lemma {:induction false} DecrLost()
    ensures |KEYWORDS| == 104 && KEYWORDS[13] == "decr" && KEYWORDS[15] == "decrby"
    ensures LastWith(KEYWORDS, "decr") == Some(15)
  {
    Place(13);
    Place(15);
    WhichCommand(13);
  }

  // Typing hincrby ends as hincrbyfloat.
  lemma {:induction false} HincrbyLost()
    ensures |KEYWORDS| == 104 && KEYWORDS[40] == "hincrby" && KEYWORDS[41] == "hincrbyfloat"
    ensures LastWith(KEYWORDS, "hincrby") == Some(41)
  {
    Place(40);
    Place(41);
    WhichCommand(40);
  }

  // Typing zunion ends as the second alternative spelled so, the one for zdiff.
  lemma {:induction false} ZunionLost()
    ensures |KEYWORDS| == 104 && KEYWORDS[83] == "zunion" && KEYWORDS[85] == "zunion"
    ensures LastWith(KEYWORDS, "zunion") == Some(85)
  {
    Place(83);
    Place(85);
    WhichCommand(83);
  }

  lemma {:induction false} RowsFirstOk()
    ensures WordsOk(ROW0) && WordsOk(ROW1)
  {
  }

  lemma {:induction false} RowsSecondOk()
    ensures WordsOk(ROW2) && WordsOk(ROW3)
  {
  }

  lemma {:induction false} RowsThirdOk()
    ensures WordsOk(ROW4) && WordsOk(ROW5)
  {
  }

  lemma {:induction false} RowsLastOk()
    ensures WordsOk(ROW6) && WordsOk(ROW7)
  {
  }

  // The alternatives meet the condition of `RespGrammar.Language`.
  lemma {:induction false} KeywordsOk()
    ensures WordsOk(KEYWORDS)
  {
    RowsFirstOk();
    RowsSecondOk();
    RowsThirdOk();
    RowsLastOk();
    Place(0);
    forall k | 0 <= k < |KEYWORDS| ensures KEYWORDS[k] != "" && Letters(KEYWORDS[k]) {
      Place(k);
      assert WordsOk(ROWS[k / 13]);
    }
  }

  // A printed request whose word is keyword `k`, in either case, ends as command `EndsAs(k)`
  // with exactly the arguments printed.
  lemma {:induction false} PrintedCommand(u32: nat, command: Option<nat>, count: nat, k: nat,
                                         word: string, args: seq<string>)
    requires k < |KEYWORDS| && Variant(word, KEYWORDS[k])
    requires args != [] && forall i :: 0 <= i < |args| ==> |args[i]| < MODULUS
    ensures var t := Run(KEYWORDS, Init(u32, command), Request(count, word, args));
            t.control.Final? && t.args == args && t.command == Some(EndsAs(k))
  {
    KeywordsOk();
    Place(0);
    WhichCommand(k);
    ParserUndoesPrinter(KEYWORDS, u32, command, count, k, word, args);
  }
}
