/** Which log records a filter lets through, told from the names of levels, the attributes and the
    clock alone (internal/httpapi/admin_logs.go parseLogFilter, matches). */
module LogFilters {
  import opened Prelude
  import opened Text
  import opened LogRing
  import opened LogTail

  // ----- criteria select independently -----

  /** Filtering by two criteria is filtering by one and then by the other. */
  lemma {:induction false} FilterTwice<T>(both: T -> bool, one: T -> bool, other: T -> bool, s: seq<T>)
    requires forall i :: 0 <= i < |s| ==> (both(s[i]) <==> one(s[i]) && other(s[i]))
    ensures Filter(both, s) == Filter(other, Filter(one, s))
  {
    if s != [] {
      FilterTwice(both, one, other, s[1..]);
      var rest := Filter(one, s[1..]);
      if one(s[0]) { assert ([s[0]] + rest)[1..] == rest; }
    }
  }

  lemma PollTwice<T>(cap: nat, both: T -> bool, one: T -> bool, other: T -> bool, log: seq<T>, cursor: nat)
    requires forall r :: r in log ==> (both(r) <==> one(r) && other(r))
    ensures Poll(cap, both, log, cursor) == (Filter(other, Poll(cap, one, log, cursor).0), Poll(cap, one, log, cursor).1)
  {
    var snap := Suffix(log, cap);
    var newN := if |log| - cursor > |snap| then |snap| else |log| - cursor;
    if |log| > cursor {
      var s := snap[|snap| - newN..];
      forall i | 0 <= i < |s| ensures both(s[i]) <==> one(s[i]) && other(s[i]) {
        assert s[i] in snap && s[i] in log;
      }
      FilterTwice(both, one, other, s);
    }
  }

  /** So a stream with one criterion more is the stream without it, filtered by that criterion, whatever
      the interleaving. */
  lemma {:induction false} StreamTwice<T(!new)>(cap: nat, both: T -> bool, one: T -> bool, other: T -> bool, log0: seq<T>, actions: seq<Action<T>>)
    requires forall r :: both(r) <==> one(r) && other(r)
    ensures var a, b := Run(cap, both, log0, actions), Run(cap, one, log0, actions);
            a.log == b.log && a.cursor == b.cursor && a.sent == Filter(other, b.sent)
  {
    if actions != [] {
      var before := actions[..|actions| - 1];
      StreamTwice(cap, both, one, other, log0, before);
      var a, b := Run(cap, both, log0, before), Run(cap, one, log0, before);
      if actions[|actions| - 1].Tick? {
        PollTwice(cap, both, one, other, a.log, a.cursor);
        FilterAppend(other, b.sent, Poll(cap, one, b.log, b.cursor).0);
      }
    }
  }

  /** What a connection with filter f has sent. */
  function Sent(cap: nat, f: LogFilter, log0: seq<LogRecord>, actions: seq<Action<LogRecord>>): seq<LogRecord> {
    Run(cap, Keep(f), log0, actions).sent
  }

  /** An attribute criterion selects exactly the records that carry the attribute with that value. */
  lemma AttributeSelects(cap: nat, f: LogFilter, key: string, want: string, log0: seq<LogRecord>, actions: seq<Action<LogRecord>>)
    requires key !in f.attrMatch
    ensures Sent(cap, f.(attrMatch := f.attrMatch[key := want]), log0, actions) ==
            Filter((r: LogRecord) => key in r.attrs && r.attrs[key] == want, Sent(cap, f, log0, actions))
  {
    var g := f.(attrMatch := f.attrMatch[key := want]);
    var has := (r: LogRecord) => key in r.attrs && r.attrs[key] == want;
    forall r ensures Keep(g)(r) <==> Keep(f)(r) && has(r) { OneMoreAttribute(f, key, want, r); }
    StreamTwice(cap, Keep(g), Keep(f), has, log0, actions);
  }

  lemma OneMoreAttribute(f: LogFilter, key: string, want: string, r: LogRecord)
    requires key !in f.attrMatch
    ensures Matches(f.(attrMatch := f.attrMatch[key := want]), r) <==> Matches(f, r) && key in r.attrs && r.attrs[key] == want
  {
    var more := f.attrMatch[key := want];
    assert key in more && more[key] == want;
    assert forall k :: k in f.attrMatch ==> k in more && more[k] == f.attrMatch[k];
  }

  function Before(m: Time): LogRecord -> bool { (r: LogRecord) => r.time < m }

  function From(m: Time): LogRecord -> bool { (r: LogRecord) => r.time >= m }

  /** A lower bound of the window selects the records from that instant on. */
  lemma SinceSelects(cap: nat, f: LogFilter, t: Time, log0: seq<LogRecord>, actions: seq<Action<LogRecord>>)
    requires f.since.None?
    ensures Sent(cap, f.(since := Some(t)), log0, actions) == Filter(From(t), Sent(cap, f, log0, actions))
  {
    StreamTwice(cap, Keep(f.(since := Some(t))), Keep(f), From(t), log0, actions);
  }

  /** An upper bound selects those strictly before it. */
  lemma UntilSelects(cap: nat, f: LogFilter, t: Time, log0: seq<LogRecord>, actions: seq<Action<LogRecord>>)
    requires f.until.None?
    ensures Sent(cap, f.(until := Some(t)), log0, actions) == Filter(Before(t), Sent(cap, f, log0, actions))
  {
    StreamTwice(cap, Keep(f.(until := Some(t))), Keep(f), Before(t), log0, actions);
  }

  function Within(f: LogFilter, s: Time, u: Time): LogFilter { f.(since := Some(s), until := Some(u)) }

  lemma EarlyPart(f: LogFilter, s: Time, m: Time, u: Time, r: LogRecord)
    requires s <= m <= u
    ensures Matches(Within(f, s, m), r) <==> Matches(Within(f, s, u), r) && r.time < m
    ensures Matches(Within(f, m, u), r) <==> Matches(Within(f, s, u), r) && r.time >= m
  {
  }

  /** A stream over [s, u) splits at m into the records before m and those from m on. */
  lemma WindowSplits(cap: nat, f: LogFilter, s: Time, m: Time, u: Time, log0: seq<LogRecord>, actions: seq<Action<LogRecord>>)
    requires s <= m <= u
    ensures Sent(cap, Within(f, s, m), log0, actions) == Filter(Before(m), Sent(cap, Within(f, s, u), log0, actions))
    ensures Sent(cap, Within(f, m, u), log0, actions) == Filter(From(m), Sent(cap, Within(f, s, u), log0, actions))
  {
    var whole, early, late := Keep(Within(f, s, u)), Keep(Within(f, s, m)), Keep(Within(f, m, u));
    forall r ensures (early(r) <==> whole(r) && Before(m)(r)) && (late(r) <==> whole(r) && From(m)(r)) {
      EarlyPart(f, s, m, u, r);
    }
    StreamTwice(cap, early, whole, Before(m), log0, actions);
    StreamTwice(cap, late, whole, From(m), log0, actions);
  }

  // ----- levels by name -----

  /** The levels, mildest first. */
  const ORDER := ["debug", "info", "warn", "error"]

  /** A text spells a level in any case, blanks around it aside; warning is another word for warn. */
  predicate Spells(text: string, i: nat) {
    i < |ORDER| && (Normal(text) == ORDER[i] || (i == 2 && Normal(text) == "warning"))
  }

  /** A record's level as slog prints it: a spelled name, alone or with an offset that starts at the
      first plus, or at the first minus if there is no plus. */
  predicate Names(level: string, base: string, i: nat) {
    && Spells(base, i) && base <= level
    && var rest := level[|base|..];
       || (rest == "" && Free(base, '+') && Free(base, '-'))
       || (rest != "" && rest[0] == '+' && Free(base, '+'))
       || (rest != "" && rest[0] == '-' && Free(level, '+') && Free(base, '-'))
  }

  /** Each letter is that of the name, in lower or upper case. */
  predicate SameLetters(text: string, name: string) {
    |text| == |name| && forall k :: 0 <= k < |name| ==> text[k] == name[k] || (text[k] < name[k] && text[k] as int + 32 == name[k] as int)
  }

  /** A name in any mixture of cases, with any white space around it, spells its level. */
  lemma AnyCaseSpells(a: string, text: string, b: string, i: nat)
    requires Blank(a) && Blank(b) && i < |ORDER| && SameLetters(text, ORDER[i])
    ensures Spells(a + text + b, i)
  {
    var name := ORDER[i];
    assert forall k :: 0 <= k < |name| ==> 'a' <= name[k] <= 'z';
    LetterCases(text, name);
    TrimPadding(a, text, b);
  }

  lemma LetterCases(text: string, name: string)
    requires SameLetters(text, name) && name != "" && forall k :: 0 <= k < |name| ==> 'a' <= name[k] <= 'z'
    ensures Lower(text) == name && !IsSpace(text[0]) && !IsSpace(text[|text| - 1])
  {
    forall k | 0 <= k < |name| ensures LowerChar(text[k]) == name[k] && !IsSpace(text[k]) {
      assert text[k] == name[k] || 'A' <= text[k] <= 'Z';
    }
  }

  /** slog's number of a level. */
  function Rank(i: nat): int { 4 * i - 4 }

  lemma RankOfName(text: string, i: nat, unknown: int)
    requires Spells(text, i)
    ensures LevelRank(text, unknown) == Rank(i)
  {
    assert |ORDER[0]| == 5 && |ORDER[1]| == 4 && |ORDER[2]| == 4 && |ORDER[3]| == 5 && |"warning"| == 7;
    assert ORDER[0][0] == 'd' && ORDER[1][0] == 'i' && ORDER[2][0] == 'w' && ORDER[3][0] == 'e' && "warning"[0] == 'w';
  }

  lemma UnknownName(text: string, unknown: int)
    requires forall i: nat :: !Spells(text, i)
    ensures LevelRank(text, unknown) == unknown
  {
    assert !Spells(text, 0) && !Spells(text, 1) && !Spells(text, 2) && !Spells(text, 3);
  }

  lemma NameStart(name: string, i: nat)
    requires i < |ORDER| && (name == ORDER[i] || (i == 2 && name == "warning"))
    ensures name != "" && 'a' <= name[0] <= 'z'
  {
  }

  /** A spelled name starts with a letter or a blank. */
  lemma SpelledStart(text: string, i: nat)
    requires Spells(text, i)
    ensures text != "" && text[0] != '+' && text[0] != '-'
  {
    NameStart(Normal(text), i);
    if text != "" && !IsSpace(text[0]) {
      SolidStart(text);
      assert Normal(text)[0] == LowerChar(text[0]);
    }
  }

  lemma SolidStart(text: string)
    requires text != "" && !IsSpace(text[0])
    ensures Trim(text) != "" && Trim(text)[0] == text[0]
  {
    assert TrimLeft(text) == text;
    TrimRightKeepsStart(text);
  }

  lemma {:induction false} TrimRightKeepsStart(s: string)
    requires s != "" && !IsSpace(s[0])
    ensures TrimRight(s) != "" && TrimRight(s)[0] == s[0]
  {
    if IsSpace(s[|s| - 1]) { TrimRightKeepsStart(s[..|s| - 1]); }
  }

  lemma IndexOfFirst(s: string, ch: char, i: nat)
    requires i < |s| && s[i] == ch && Free(s[..i], ch)
    ensures IndexOf(s, ch) == i
  {
    IndexOfUnique(s[..i], ch, s[i + 1..]);
    assert s == s[..i] + [ch] + s[i + 1..];
  }

  /** A named record ranks as its name, whatever its offset. */
  lemma RankOfRecord(level: string, base: string, i: nat)
    requires Names(level, base, i)
    ensures RecordLevelRank(level) == Rank(i)
  {
    SpelledStart(base, i);
    RankOfName(base, i, 8);
    var n := |base|;
    assert level[..n] == base;
    if n == |level| {
      assert level == base;
      IndexOfNone(level, '+');
      IndexOfNone(level, '-');
    } else if level[n..][0] == '+' {
      assert level[n] == '+';
      IndexOfFirst(level, '+', n);
    } else {
      assert level[n] == '-';
      IndexOfNone(level, '+');
      IndexOfFirst(level, '-', n);
    }
  }

  /** A record without a name ranks as an error. */
  lemma UnnamedRanksHigh(level: string)
    requires forall base: string, i: nat :: !Names(level, base, i)
    ensures RecordLevelRank(level) == 8
  {
    var base := BaseOf(level);
    forall i: nat ensures !Spells(base, i) {
      if Spells(base, i) {
        SpelledStart(base, i);
        CutIsNamed(level, i);
      }
    }
    UnknownName(base, 8);
  }

  /** The part of a record's level that is ranked. */
  function BaseOf(level: string): string {
    var plus, minus := IndexOf(level, '+'), IndexOf(level, '-');
    if 0 < plus < |level| then level[..plus]
    else if 0 < minus < |level| then level[..minus]
    else level
  }

  lemma CutIsNamed(level: string, i: nat)
    requires Spells(BaseOf(level), i) && BaseOf(level) != "" && BaseOf(level)[0] != '+' && BaseOf(level)[0] != '-'
    ensures Names(level, BaseOf(level), i)
  {
    var plus, minus, base := IndexOf(level, '+'), IndexOf(level, '-'), BaseOf(level);
    assert level[0] == base[0];
    if plus < |level| {
      assert level[plus..][0] == '+';
    } else {
      assert level[..plus] == level && Free(level, '+');
      if minus < |level| {
        assert level[minus..][0] == '-';
      } else {
        assert level[..minus] == level;
      }
    }
  }

  // ----- the floor -----

  /** parseLogFilter: the floor a request asks for; warn if it names none. */
  function Floor(asked: string): int {
    if asked != "" && LevelRank(asked, -8) >= -4 then LevelRank(asked, -8) else LevelRank("warn", -8)
  }

  lemma FloorOfName(asked: string, i: nat)
    requires Spells(asked, i)
    ensures Floor(asked) == Rank(i)
  {
    RankOfName(asked, i, -8);
    SpelledStart(asked, i);
  }

  lemma FloorOfOther(asked: string)
    requires forall i: nat :: !Spells(asked, i)
    ensures Floor(asked) == Rank(2)
  {
    UnknownName(asked, -8);
    WarnIsSpelled("warn");
    RankOfName("warn", 2, -8);
  }

  lemma WarnIsSpelled(name: string)
    requires name == ORDER[2]
    ensures Spells(name, 2)
  {
    NormalOfLowerCase(name);
  }

  /** A filter with a floor and nothing else. */
  function FloorOnly(asked: string): LogFilter { LogFilter(Floor(asked), map[], None, None) }

  /** With a floor named by one of the levels, a record of a named level goes out exactly when its level
      is at or above the floor. */
  lemma SentExactlyAtOrAbove(asked: string, floor: nat, r: LogRecord, base: string, i: nat)
    requires Spells(asked, floor) && Names(r.level, base, i)
    ensures Keep(FloorOnly(asked))(r) <==> i >= floor
  {
    FloorOfName(asked, floor);
    RankOfRecord(r.level, base, i);
  }

  /** A record of no named level goes out under every floor. */
  lemma UnnamedIsSent(asked: string, r: LogRecord)
    requires forall base: string, i: nat :: !Names(r.level, base, i)
    ensures Keep(FloorOnly(asked))(r)
  {
    UnnamedRanksHigh(r.level);
    if i: nat :| Spells(asked, i) {
      FloorOfName(asked, i);
    } else {
      FloorOfOther(asked);
    }
  }

  /** A request that names no level, or one there is not, gets warnings and errors. */
  lemma DefaultFloorIsWarn(asked: string, r: LogRecord, base: string, i: nat)
    requires (forall k: nat :: !Spells(asked, k)) && Names(r.level, base, i)
    ensures Keep(FloorOnly(asked))(r) <==> i >= 2
  {
    FloorOfOther(asked);
    RankOfRecord(r.level, base, i);
  }

  lemma FloorTwice(f: LogFilter, low: int, high: int, r: LogRecord)
    requires low <= high
    ensures Matches(f.(minLevel := high), r) <==> Matches(f.(minLevel := low), r) && Matches(LogFilter(high, map[], None, None), r)
  {
  }

  lemma FloorStream(cap: nat, f: LogFilter, low: int, high: int, log0: seq<LogRecord>, actions: seq<Action<LogRecord>>)
    requires low <= high
    ensures Sent(cap, f.(minLevel := high), log0, actions) ==
            Filter(Keep(LogFilter(high, map[], None, None)), Sent(cap, f.(minLevel := low), log0, actions))
  {
    var a, b, c := Keep(f.(minLevel := high)), Keep(f.(minLevel := low)), Keep(LogFilter(high, map[], None, None));
    forall r ensures a(r) <==> b(r) && c(r) { FloorTwice(f, low, high, r); }
    StreamTwice(cap, a, b, c, log0, actions);
  }

  /** The floor is a criterion of its own: raising it from one level to another takes away exactly the
      records below, so lowering it only adds. */
  lemma FloorSelects(cap: nat, f: LogFilter, low: string, high: string, a: nat, b: nat, log0: seq<LogRecord>, actions: seq<Action<LogRecord>>)
    requires Spells(low, a) && Spells(high, b) && a <= b
    ensures Sent(cap, f.(minLevel := Floor(high)), log0, actions) ==
            Filter(Keep(FloorOnly(high)), Sent(cap, f.(minLevel := Floor(low)), log0, actions))
  {
    FloorOfName(low, a);
    FloorOfName(high, b);
    FloorStream(cap, f, Floor(low), Floor(high), log0, actions);
  }
}
