/**
 The two text helpers of the formatter store: `messages`, which summarises a
 transaction's messages as "Send×2, Delegate", and `multiLine`, which turns
 the two-character escapes `\n` and `\r` into real line breaks.
 */
module MessageSummary {
  import opened JsValues

  /** A message's `@type` and `typeUrl` fields; "" stands for a missing field. */
  datatype Msg = Msg(atType: string, typeUrl: string)

  /** `msg['@type'] || msg.typeUrl || 'unknown'`. */
  function MsgType(m: Msg): (t: string)
    ensures t != ""
    ensures m.atType != "" ==> t == m.atType
    ensures m.atType == "" && m.typeUrl != "" ==> t == m.typeUrl
    ensures m.atType == "" && m.typeUrl == "" ==> t == "unknown"
  {
    if m.atType != "" then m.atType else if m.typeUrl != "" then m.typeUrl else "unknown"
  }

  /** Removing the first occurrence of a pattern adds no character that was not there. */
  lemma ReplaceFirstRemovesOnly(s: string, pat: string, c: char)
    requires c !in s
    ensures c !in ReplaceFirst(s, pat, "")
  {
    match IndexOf(s, pat)
    case None =>
    case Some(i) =>
      var r := ReplaceFirst(s, pat, "");
      forall j | 0 <= j < |r| ensures r[j] != c {
        if j < i { assert r[j] == s[j]; } else { assert r[j] == s[j + |pat|]; }
      }
  }

  /** A character absent from every position from `k` on is absent from the suffix `s[k..]`. */
  lemma AbsentFromSuffix(s: string, c: char, k: nat)
    requires k <= |s|
    requires forall j :: k <= j < |s| ==> s[j] != c
    ensures c !in s[k..]
  {
    var tail := s[k..];
    forall j | 0 <= j < |tail| ensures tail[j] != c {
      assert tail[j] == s[k + j];
    }
  }

  /** The text after the last '.', with the first "Msg" removed: a name with no '.' left. */
  function ShortName(typeUrl: string): (r: string)
    ensures '.' !in r
    ensures '.' !in typeUrl ==> r == ReplaceFirst(typeUrl, "Msg", "")
  {
    var tail := typeUrl[LastIndexOf(typeUrl, '.') + 1..];
    AbsentFromSuffix(typeUrl, '.', LastIndexOf(typeUrl, '.') + 1);
    ReplaceFirstRemovesOnly(tail, "Msg", '.');
    ReplaceFirst(tail, "Msg", "")
  }

  /** The short name is the text after the last '.', with the first "Msg" in it removed. */
  lemma ShortNameAfterLastDot(prefix: string, rest: string)
    requires '.' !in rest
    ensures ShortName(prefix + "." + rest) == ReplaceFirst(rest, "Msg", "")
  {
    var t := prefix + "." + rest;
    var k := LastIndexOf(t, '.');
    assert t[|prefix|] == '.';
    assert k == |prefix|;
    assert t[k + 1..] == rest;
  }

  /** A message with neither `@type` nor `typeUrl` is counted under "unknown". */
  lemma ShortNameOfUnknown()
    ensures ShortName(MsgType(Msg("", ""))) == "unknown"
  {
    var t := MsgType(Msg("", ""));
    assert t == "unknown";
    assert forall i :: 0 <= i < |t| ==> t[i] != '.' && t[i] != 'M';
    ReplaceFirstWithoutMatch(t, "Msg", "");
  }

  /** A type URL ending in ".Msg<Name>" is shown as "<Name>", e.g. "/cosmos.bank.v1beta1.MsgSend" as "Send". */
  lemma ShortNameStripsMsg(prefix: string, name: string)
    requires '.' !in name
    ensures ShortName(prefix + ".Msg" + name) == name
  {
    var rest := "Msg" + name;
    assert prefix + ".Msg" + name == prefix + "." + rest;
    ShortNameAfterLastDot(prefix, rest);
    ReplaceLeadingPrefix(rest, "Msg");
    assert rest[3..] == name;
  }

  function Names(msgs: seq<Msg>): (names: seq<string>)
    ensures |names| == |msgs|
    ensures forall i :: 0 <= i < |msgs| ==> names[i] == ShortName(MsgType(msgs[i]))
    ensures forall i :: 0 <= i < |msgs| ==> '.' !in names[i]
  {
    seq(|msgs|, i requires 0 <= i < |msgs| => ShortName(MsgType(msgs[i])))
  }

  /** The `reduce` accumulator: keys in first-occurrence order and their counts. */
  datatype Tally = Tally(keys: seq<string>, counts: map<string, nat>)

  /** Counting names left to right, as the `reduce` does: a seen name's count goes up, a new name is appended. */
  function TallyOf(names: seq<string>): Tally
    decreases |names|
  {
    if names == [] then Tally([], map[])
    else
      var prev := TallyOf(names[..|names| - 1]);
      var c := names[|names| - 1];
      if c in prev.counts then Tally(prev.keys, prev.counts[c := prev.counts[c] + 1])
      else Tally(prev.keys + [c], prev.counts[c := 1])
  }

  /** Each key is listed once, the keys are exactly the counted names, and every count is positive. */
  lemma {:induction false} TallyWellFormed(names: seq<string>)
    ensures NoDuplicates(TallyOf(names).keys)
    ensures forall k :: k in TallyOf(names).counts <==> k in TallyOf(names).keys
    ensures forall k :: k in TallyOf(names).counts ==> TallyOf(names).counts[k] >= 1
    decreases |names|
  {
    if names != [] {
      TallyWellFormed(names[..|names| - 1]);
    }
  }

  /** Every name is a key, and each count is the number of times its name occurs. */
  lemma {:induction false} TallyCountsOccurrences(names: seq<string>)
    ensures forall k :: k in TallyOf(names).counts <==> k in names
    ensures forall k :: k in TallyOf(names).counts ==> TallyOf(names).counts[k] == multiset(names)[k]
    decreases |names|
  {
    if names != [] {
      var prefix, c := names[..|names| - 1], names[|names| - 1];
      TallyCountsOccurrences(prefix);
      TallyStep(prefix, c);
      assert names == prefix + [c];
      assert multiset(names) == multiset(prefix) + multiset{c};
    }
  }

  /** The position of the first occurrence of `k` in `names`. */
  function FirstIndex(names: seq<string>, k: string): (r: nat)
    requires k in names
    ensures r < |names| && names[r] == k
    ensures forall j :: 0 <= j < r ==> names[j] != k
    decreases |names|
  {
    var prefix := names[..|names| - 1];
    if k in prefix then FirstIndex(prefix, k) else |names| - 1
  }

  lemma FirstIndexAppend(names: seq<string>, c: string, k: string)
    requires k in names
    ensures FirstIndex(names + [c], k) == FirstIndex(names, k)
  {
    var all := names + [c];
    assert all[..|all| - 1] == names;
  }

  /** The keys are the distinct names, ordered by where each name first occurs. */
  lemma {:induction false} TallyKeysInFirstOccurrenceOrder(names: seq<string>)
    ensures forall k :: k in TallyOf(names).keys <==> k in names
    ensures forall i, j :: 0 <= i < j < |TallyOf(names).keys| ==>
              TallyOf(names).keys[i] in names && TallyOf(names).keys[j] in names &&
              FirstIndex(names, TallyOf(names).keys[i]) < FirstIndex(names, TallyOf(names).keys[j])
    decreases |names|
  {
    TallyWellFormed(names);
    TallyCountsOccurrences(names);
    if names != [] {
      var prefix, c := names[..|names| - 1], names[|names| - 1];
      assert names == prefix + [c];
      TallyKeysInFirstOccurrenceOrder(prefix);
      TallyWellFormed(prefix);
      TallyCountsOccurrences(prefix);
      TallyStep(prefix, c);
      var prev, keys := TallyOf(prefix).keys, TallyOf(names).keys;
      forall i, j | 0 <= i < j < |keys|
        ensures keys[i] in names && keys[j] in names && FirstIndex(names, keys[i]) < FirstIndex(names, keys[j])
      {
        FirstIndexAppend(prefix, c, prev[i]);
        if j < |prev| {
          FirstIndexAppend(prefix, c, prev[j]);
        } else {
          assert keys[j] == c && c !in prefix;
        }
      }
    }
  }

  /** The sum of the counts of `keys`, read from `counts`. */
  function Total(keys: seq<string>, counts: map<string, nat>): nat
    decreases |keys|
  {
    if keys == [] then 0
    else
      var k := keys[|keys| - 1];
      Total(keys[..|keys| - 1], counts) + (if k in counts then counts[k] else 0)
  }

  lemma {:induction false} TotalIgnoresOtherKeys(keys: seq<string>, counts: map<string, nat>, c: string, n: nat)
    requires c !in keys
    ensures Total(keys, counts[c := n]) == Total(keys, counts)
    decreases |keys|
  {
    if keys != [] {
      TotalIgnoresOtherKeys(keys[..|keys| - 1], counts, c, n);
    }
  }

  lemma {:induction false} TotalBump(keys: seq<string>, counts: map<string, nat>, c: string)
    requires NoDuplicates(keys) && c in keys && c in counts
    ensures Total(keys, counts[c := counts[c] + 1]) == Total(keys, counts) + 1
    decreases |keys|
  {
    var prefix := keys[..|keys| - 1];
    if keys[|keys| - 1] == c {
      assert c !in prefix;
      TotalIgnoresOtherKeys(prefix, counts, c, counts[c] + 1);
    } else {
      assert keys == prefix + [keys[|keys| - 1]];
      TotalBump(prefix, counts, c);
    }
  }

  lemma TotalAppendNew(keys: seq<string>, counts: map<string, nat>, c: string)
    requires c !in keys
    ensures Total(keys + [c], counts[c := 1]) == Total(keys, counts) + 1
  {
    var all := keys + [c];
    assert all[..|all| - 1] == keys;
    TotalIgnoresOtherKeys(keys, counts, c, 1);
  }

  /** The counts add up to the number of messages. */
  lemma {:induction false} TallyTotal(names: seq<string>)
    ensures Total(TallyOf(names).keys, TallyOf(names).counts) == |names|
    decreases |names|
  {
    if names != [] {
      var prefix, c := names[..|names| - 1], names[|names| - 1];
      var prev := TallyOf(prefix);
      TallyTotal(prefix);
      TallyWellFormed(prefix);
      if c in prev.counts {
        TotalBump(prev.keys, prev.counts, c);
      } else {
        TotalAppendNew(prev.keys, prev.counts, c);
      }
    }
  }

  /** The rendering of one key: "k×n" for a repeated name, "k" for a single one. */
  function Entry(key: string, count: nat): string {
    if count > 1 then key + "\U{D7}" + NatToString(count) else key
  }

  /** The `output` array: one entry per key, in key order. */
  function Entries(keys: seq<string>, counts: map<string, nat>): (out: seq<string>)
    ensures |out| == |keys|
    decreases |keys|
  {
    if keys == [] then []
    else
      var k := keys[|keys| - 1];
      Entries(keys[..|keys| - 1], counts) + [Entry(k, if k in counts then counts[k] else 0)]
  }

  /** The entry at position `i` renders the `i`-th key with its count: "k×n" once the name repeats. */
  lemma {:induction false} EntriesAt(keys: seq<string>, counts: map<string, nat>, i: nat)
    requires i < |keys|
    ensures Entries(keys, counts)[i] == Entry(keys[i], if keys[i] in counts then counts[keys[i]] else 0)
    decreases |keys|
  {
    if i < |keys| - 1 {
      EntriesAt(keys[..|keys| - 1], counts, i);
    }
  }

  /** What `messages(msgs)` returns for a message list. */
  function Summary(msgs: seq<Msg>): string {
    var t := TallyOf(Names(msgs));
    Join(Entries(t.keys, t.counts), ", ")
  }

  lemma {:induction false} EntriesIgnoreOtherKeys(keys: seq<string>, counts: map<string, nat>, c: string, n: nat)
    requires c !in keys
    ensures Entries(keys, counts[c := n]) == Entries(keys, counts)
    decreases |keys|
  {
    if keys != [] {
      EntriesIgnoreOtherKeys(keys[..|keys| - 1], counts, c, n);
    }
  }

  /** Counting one more name bumps its count, or appends it as a new key with count 1. */
  lemma TallyStep(names: seq<string>, c: string)
    ensures var prev := TallyOf(names);
            TallyOf(names + [c]) == if c in prev.counts then Tally(prev.keys, prev.counts[c := prev.counts[c] + 1])
                                    else Tally(prev.keys + [c], prev.counts[c := 1])
  {
    var all := names + [c];
    assert all[..|all| - 1] == names;
    assert all[|all| - 1] == c;
  }

  /** Names that each occur once are listed as they are, in message order. */
  lemma {:induction false} DistinctNamesListedInOrder(names: seq<string>)
    requires NoDuplicates(names)
    ensures TallyOf(names).keys == names
    ensures Entries(TallyOf(names).keys, TallyOf(names).counts) == names
    decreases |names|
  {
    if names != [] {
      var prefix, c := names[..|names| - 1], names[|names| - 1];
      assert names == prefix + [c];
      assert NoDuplicates(prefix);
      DistinctNamesListedInOrder(prefix);
      var prev := TallyOf(prefix);
      TallyCountsOccurrences(prefix);
      TallyStep(prefix, c);
      EntriesIgnoreOtherKeys(prefix, prev.counts, c, 1);
      assert Entries(names, prev.counts[c := 1])
          == Entries(prefix, prev.counts[c := 1]) + [Entry(c, 1)];
    }
  }

  /** A summary of messages whose short names are all different is those names joined by ", ". */
  lemma SummaryOfDistinct(msgs: seq<Msg>)
    requires NoDuplicates(Names(msgs))
    ensures Summary(msgs) == Join(Names(msgs), ", ")
  {
    DistinctNamesListedInOrder(Names(msgs));
  }

  /** `messages(msgs)`: the counting loop and the output loop of the source. */
  method Messages(msgs: Option<seq<Msg>>) returns (r: Option<string>)
    ensures msgs.None? ==> r.None?
    ensures msgs.Some? ==> r == Some(Summary(msgs.value))
  {
    if msgs.None? {
      return None;
    }
    var t := CountNames(Names(msgs.value));
    TallyWellFormed(Names(msgs.value));
    var output := RenderEntries(t.keys, t.counts);
    return Some(Join(output, ", "));
  }

  /** The `reduce` of `messages`: one pass bumping or adding each name. */
  method CountNames(names: seq<string>) returns (t: Tally)
    ensures t == TallyOf(names)
  {
    t := Tally([], map[]);
    for i := 0 to |names|
      invariant t == TallyOf(names[..i])
    {
      var c := names[i];
      TallyStep(names[..i], c);
      assert names[..i + 1] == names[..i] + [c];
      if c in t.counts {
        t := Tally(t.keys, t.counts[c := t.counts[c] + 1]);
      } else {
        t := Tally(t.keys + [c], t.counts[c := 1]);
      }
    }
    assert names[..|names|] == names;
  }

  /** The `forEach` of `messages`: one entry per key, in key order. */
  method RenderEntries(keys: seq<string>, counts: map<string, nat>) returns (output: seq<string>)
    requires forall k :: k in keys ==> k in counts
    ensures output == Entries(keys, counts)
  {
    output := [];
    for j := 0 to |keys|
      invariant output == Entries(keys[..j], counts)
    {
      assert keys[..j + 1][..j] == keys[..j];
      output := output + [Entry(keys[j], counts[keys[j]])];
    }
    assert keys[..|keys|] == keys;
  }

  /** Whether `s` holds a backslash followed by 'n' or 'r' at position `i`. */
  predicate EscapeAt(s: string, i: nat) {
    i + 1 < |s| && s[i] == '\\' && (s[i + 1] == 'n' || s[i + 1] == 'r')
  }

  /** `v.replace(/\\n|\\r/g, '\n')`: every escape, scanned left to right, becomes a line break. */
  function MultiLine(v: string): string
    decreases |v|
  {
    if v == [] then []
    else if EscapeAt(v, 0) then "\n" + MultiLine(v[2..])
    else [v[0]] + MultiLine(v[1..])
  }

  lemma {:induction false} MultiLineHead(v: string)
    requires v != []
    ensures MultiLine(v) != [] && (MultiLine(v)[0] == '\n' || MultiLine(v)[0] == v[0])
  {
  }

  /** No escape survives the replacement. */
  lemma {:induction false} MultiLineLeavesNoEscape(v: string)
    ensures forall i: nat :: !EscapeAt(MultiLine(v), i)
    decreases |v|
  {
    if v != [] {
      var rest := if EscapeAt(v, 0) then v[2..] else v[1..];
      MultiLineLeavesNoEscape(rest);
      var r := MultiLine(v);
      forall i: nat
        ensures !EscapeAt(r, i)
      {
        if i > 0 {
          assert !EscapeAt(MultiLine(rest), i - 1);
        } else if !EscapeAt(v, 0) && |v| > 1 && v[0] == '\\' {
          MultiLineHead(v[1..]);
        }
      }
    }
  }

  lemma {:induction false} MultiLineKeepsEscapeFree(s: string)
    requires forall i: nat :: !EscapeAt(s, i)
    ensures MultiLine(s) == s
    decreases |s|
  {
    if s != [] {
      assert !EscapeAt(s, 0);
      forall i: nat ensures !EscapeAt(s[1..], i) {
        assert !EscapeAt(s, i + 1);
      }
      MultiLineKeepsEscapeFree(s[1..]);
    }
  }

  /** Whether `a` ends with a backslash and `b` starts with the 'n' or 'r' that completes an escape. */
  predicate EscapeAcross(a: string, b: string) {
    a != [] && a[|a| - 1] == '\\' && b != [] && (b[0] == 'n' || b[0] == 'r')
  }

  /** Text split where no escape straddles the cut is rewritten piece by piece. */
  lemma {:induction false} MultiLineConcat(a: string, b: string)
    requires !EscapeAcross(a, b)
    ensures MultiLine(a + b) == MultiLine(a) + MultiLine(b)
    decreases |a|
  {
    if a == [] {
      assert a + b == b;
    } else {
      var k := if EscapeAt(a, 0) then 2 else 1;
      var rest := a[k..];
      assert rest != [] ==> rest[|rest| - 1] == a[|a| - 1];
      assert !EscapeAcross(rest, b);
      assert (a + b)[k..] == rest + b;
      assert EscapeAt(a + b, 0) <==> EscapeAt(a, 0);
      MultiLineConcat(rest, b);
    }
  }

  /** Each `\\n` or `\\r` in the text becomes a line break, whatever surrounds it. */
  lemma MultiLineSplitsAtEscape(a: string, b: string, letter: char)
    requires letter == 'n' || letter == 'r'
    ensures MultiLine(a + ['\\', letter] + b) == MultiLine(a) + "\n" + MultiLine(b)
  {
    var tail := ['\\', letter] + b;
    assert a + ['\\', letter] + b == a + tail;
    MultiLineConcat(a, tail);
    assert EscapeAt(tail, 0) && tail[2..] == b;
  }

  /** `multiLine` is idempotent. */
  lemma MultiLineIdempotent(v: string)
    ensures MultiLine(MultiLine(v)) == MultiLine(v)
  {
    MultiLineLeavesNoEscape(v);
    MultiLineKeepsEscapeFree(MultiLine(v));
  }
}
