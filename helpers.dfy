/**
 * The server's pure utility functions: day arithmetic, contract numbers,
 * the timeline/urgency/progress classification of a contract, input
 * sanitising, pagination metadata and the audit-row builder.
 *
 * Dates are instants in integer milliseconds since the epoch; the current
 * time is a parameter.
 */
module Helpers {
  import opened Wrappers
  import opened Decimal
  import opened JsValues

  const MillisPerDay: int := 1000 * 60 * 60 * 24

  /** `Math.ceil(a / b)` for a positive divisor: the least q with a <= q * b. */
  function CeilDiv(a: int, b: int): (q: int)
    requires b > 0
    ensures (q - 1) * b < a <= q * b
  {
    -((-a) / b)
  }

  /** The bounds of `CeilDiv` pin it down: no other quotient satisfies them. */
  lemma CeilDivUnique(a: int, b: int, q: int)
    requires b > 0 && (q - 1) * b < a <= q * b
    ensures q == CeilDiv(a, b)
  {
    var c := CeilDiv(a, b);
    if q < c {
      assert q * b <= (c - 1) * b by { MultiplyMonotone(q, c - 1, b); }
    } else if c < q {
      assert c * b <= (q - 1) * b by { MultiplyMonotone(c, q - 1, b); }
    }
  }

  lemma MultiplyMonotone(x: int, y: int, b: int)
    requires x <= y && b > 0
    ensures x * b <= y * b
  {
    assert y * b - x * b == (y - x) * b;
  }

  /** A ceiling quotient stays at or below n exactly when the dividend fits in n divisors. */
  lemma CeilDivAtMost(a: int, b: int, n: int)
    requires b > 0
    ensures CeilDiv(a, b) <= n <==> a <= n * b
  {
    var q := CeilDiv(a, b);
    if q <= n {
      MultiplyMonotone(q, n, b);
    } else {
      MultiplyMonotone(n, q - 1, b);
    }
  }

  function Abs(x: int): nat { if x < 0 then -x else x }

  /** Whole days, rounded up, between two instants in either order. */
  function DaysBetween(startMs: int, endMs: int): (days: int)
    ensures days >= 0
    ensures (days - 1) * MillisPerDay < Abs(endMs - startMs) <= days * MillisPerDay
  {
    CeilDiv(Abs(endMs - startMs), MillisPerDay)
  }

  /** The order of the two dates does not matter. */
  lemma DaysBetweenSymmetric(a: int, b: int)
    ensures DaysBetween(a, b) == DaysBetween(b, a)
  {
    assert Abs(b - a) == Abs(a - b);
  }

  /** Zero days apart means the very same instant; any gap, however short, counts as a day. */
  lemma DaysBetweenZero(a: int, b: int)
    ensures DaysBetween(a, b) == 0 <==> a == b
  {
  }

  /** `s.padStart(width, "0")`. */
  function PadStart(s: string, width: nat): (r: string)
    ensures |r| == if |s| < width then width else |s|
    ensures r[|r| - |s|..] == s
    ensures forall i | 0 <= i < |r| - |s| :: r[i] == '0'
  {
    if |s| < width then seq(width - |s|, _ => '0') + s else s
  }

  /**
   * `${prefix}-${year}-${sequence.toString().padStart(3, "0")}`, where an
   * omitted prefix is "HD" and an omitted year is the current year.
   */
  function GenerateContractNumber(prefix: Option<string>, year: Option<int>, currentYear: int, sequence: int): (r: string)
  {
    var p := if prefix.Some? then prefix.value else "HD";
    var y := if year.Some? then year.value else currentYear;
    p + "-" + IntToString(y) + "-" + PadStart(IntToString(sequence), 3)
  }

  lemma NatToStringShort(n: nat)
    requires n < 1000
    ensures |NatToString(n)| <= 3
  {
    if n >= 10 {
      assert |NatToString(n / 10)| <= 2 by {
        if n / 10 >= 10 {
          assert NatToString(n / 10) == NatToString(n / 100) + [Digit((n / 10) % 10)];
        }
      }
    }
  }

  /**
   * For a non-negative sequence number the contract number ends in a digit
   * field of at least three characters that reads back as the sequence
   * number; below 1000 the field is exactly three characters wide.
   */
  lemma ContractNumberSequence(prefix: Option<string>, year: Option<int>, currentYear: int, sequence: nat)
    ensures
      var r := GenerateContractNumber(prefix, year, currentYear, sequence);
      var field := PadStart(IntToString(sequence), 3);
      |field| >= 3 && AllDigits(field) && DigitsValue(field) == sequence
      && |field| < |r| && r[|r| - |field|..] == field && r[|r| - |field| - 1] == '-'
      && (sequence < 1000 ==> |field| == 3)
  {
    PaddedSequence(sequence);
    var r := GenerateContractNumber(prefix, year, currentYear, sequence);
    var field := PadStart(IntToString(sequence), 3);
    var p := if prefix.Some? then prefix.value else "HD";
    var y := if year.Some? then year.value else currentYear;
    var head := p + "-" + IntToString(y) + "-";
    assert r == head + field;
    assert r[|r| - |field|..] == field;
    assert r[|r| - |field| - 1] == head[|head| - 1] == '-';
  }

  /**
   * The contract number opens with the prefix and a `-`, then the year's
   * decimal spelling and another `-`; a non-negative year reads back from
   * its digits.
   */
  lemma ContractNumberHead(prefix: Option<string>, year: Option<int>, currentYear: int, sequence: int)
    ensures
      var p := if prefix.Some? then prefix.value else "HD";
      var y := if year.Some? then year.value else currentYear;
      var ys := IntToString(y);
      var r := GenerateContractNumber(prefix, year, currentYear, sequence);
      |p| + |ys| + 2 < |r|
      && r[..|p| + 1] == p + "-"
      && r[|p| + 1..|p| + 1 + |ys|] == ys
      && r[|p| + 1 + |ys|] == '-'
      && (y >= 0 ==> AllDigits(ys) && DigitsValue(ys) == y)
  {
    var p := if prefix.Some? then prefix.value else "HD";
    var y := if year.Some? then year.value else currentYear;
    var ys, field := IntToString(y), PadStart(IntToString(sequence), 3);
    assert GenerateContractNumber(prefix, year, currentYear, sequence) == p + "-" + ys + "-" + field;
    DashedParts(p, ys, field);
    if y >= 0 {
      IntToStringDigits(y);
    }
  }

  /** Where the parts of `p-ys-field` lie. */
  lemma DashedParts(p: string, ys: string, field: string)
    ensures var r := p + "-" + ys + "-" + field;
      |r| == |p| + |ys| + 2 + |field|
      && r[..|p| + 1] == p + "-"
      && r[|p| + 1..|p| + 1 + |ys|] == ys
      && r[|p| + 1 + |ys|] == '-'
      && r[|p| + 1..] == ys + "-" + field
  {
    var r := p + "-" + ys + "-" + field;
    assert r == (p + "-") + (ys + "-" + field);
    assert (ys + "-" + field)[..|ys|] == ys;
  }

  /**
   * Under one prefix, a contract number names its year and sequence number:
   * distinct non-negative pairs never share a number.
   */
  lemma ContractNumberInjective(prefix: string, y1: nat, s1: nat, y2: nat, s2: nat, currentYear: int)
    requires GenerateContractNumber(Some(prefix), Some(y1), currentYear, s1)
          == GenerateContractNumber(Some(prefix), Some(y2), currentYear, s2)
    ensures y1 == y2 && s1 == s2
  {
    var a, b := IntToString(y1), IntToString(y2);
    var f1, f2 := PadStart(IntToString(s1), 3), PadStart(IntToString(s2), 3);
    assert a == NatToString(y1) && b == NatToString(y2);
    DashedParts(prefix, a, f1);
    DashedParts(prefix, b, f2);
    SplitAtDash(a, f1, b, f2);
    NatToStringInjective(y1, y2);
    PaddedSequence(s1);
    PaddedSequence(s2);
  }

  /** A digit string followed by `-` ends at that dash, so the split is unique. */
  lemma SplitAtDash(a: string, b: string, c: string, d: string)
    requires AllDigits(a) && AllDigits(c) && a + "-" + b == c + "-" + d
    ensures a == c && b == d
  {
    var t := a + "-" + b;
    assert t[|a|] == '-';
    assert (c + "-" + d)[|c|] == '-';
    assert forall i | 0 <= i < |a| :: t[i] == a[i];
    assert forall i | 0 <= i < |c| :: t[i] == c[i];
    if |a| < |c| {
      assert false;
    }
    if |c| < |a| {
      assert false;
    }
    assert a == t[..|a|] == c;
    assert b == t[|a| + 1..] == d;
  }

  /** Padding a digit string with zeros keeps it a digit string of the same value. */
  lemma PaddedDigits(digits: string)
    requires AllDigits(digits)
    ensures var field := PadStart(digits, 3);
      |field| >= 3 && AllDigits(field) && DigitsValue(field) == DigitsValue(digits)
      && (|digits| <= 3 ==> |field| == 3)
  {
    var field := PadStart(digits, 3);
    var z := field[..|field| - |digits|];
    assert field == z + digits;
    LeadingZerosValue(z, digits);
  }

  /** The padded sequence field: digits only, at least three of them, reading back as the sequence number. */
  lemma PaddedSequence(sequence: nat)
    ensures
      var field := PadStart(IntToString(sequence), 3);
      |field| >= 3 && AllDigits(field) && DigitsValue(field) == sequence
      && (sequence < 1000 ==> |field| == 3)
  {
    var digits := NatToString(sequence);
    assert IntToString(sequence) == digits;
    NatToStringRoundTrip(sequence);
    PaddedDigits(digits);
    if sequence < 1000 {
      NatToStringShort(sequence);
    }
  }

  /** Omitting the prefix and the year is the same as passing "HD" and the current year. */
  lemma ContractNumberDefaults(currentYear: int, sequence: int)
    ensures GenerateContractNumber(None, None, currentYear, sequence)
         == GenerateContractNumber(Some("HD"), Some(currentYear), currentYear, sequence)
  {
  }

  /** The timeline position of a contract relative to its end date. */
  datatype Timeline = OnTrack | Completed | Overdue | ExpiringSoon | ApproachingDeadline

  datatype Urgency = Normal | NoUrgency | Critical | High | Medium

  datatype ProgressStatus = Starting | InProgress | NearlyComplete | Complete

  function TimelineName(t: Timeline): string
  {
    match t
    case OnTrack => "on_track"
    case Completed => "completed"
    case Overdue => "overdue"
    case ExpiringSoon => "expiring_soon"
    case ApproachingDeadline => "approaching_deadline"
  }

  function UrgencyName(u: Urgency): string
  {
    match u
    case Normal => "normal"
    case NoUrgency => "none"
    case Critical => "critical"
    case High => "high"
    case Medium => "medium"
  }

  function ProgressName(p: ProgressStatus): string
  {
    match p
    case Starting => "starting"
    case InProgress => "in_progress"
    case NearlyComplete => "nearly_complete"
    case Complete => "complete"
  }

  /** The urgency that goes with each timeline position. */
  function UrgencyOf(t: Timeline): Urgency
  {
    match t
    case OnTrack => Normal
    case Completed => NoUrgency
    case Overdue => Critical
    case ExpiringSoon => High
    case ApproachingDeadline => Medium
  }

  datatype ContractStatus = ContractStatus(daysRemaining: int, timeline: Timeline, urgency: Urgency, progress: ProgressStatus)

  function ProgressOf(progress: int): ProgressStatus
  {
    if progress >= 100 then Complete
    else if progress >= 75 then NearlyComplete
    else if progress >= 50 then InProgress
    else Starting
  }

  function ProgressRank(p: ProgressStatus): nat
  {
    match p
    case Starting => 0
    case InProgress => 1
    case NearlyComplete => 2
    case Complete => 3
  }

  /** More progress never gives an earlier progress stage. */
  lemma ProgressMonotone(p: int, q: int)
    requires p <= q
    ensures ProgressRank(ProgressOf(p)) <= ProgressRank(ProgressOf(q))
  {
  }

  /**
   * Classifies a contract at instant `nowMs`.  The start date takes no part
   * in the result.
   */
  function CalculateContractStatus(startMs: int, endMs: int, progress: int, currentStatus: string, nowMs: int): (r: ContractStatus)
    ensures (r.daysRemaining - 1) * MillisPerDay < endMs - nowMs <= r.daysRemaining * MillisPerDay
    ensures currentStatus == "completed" ==> r.timeline == Completed && r.urgency == NoUrgency
    ensures r.urgency == UrgencyOf(r.timeline)
    ensures r.progress == ProgressOf(progress)
  {
    var daysRemaining := CeilDiv(endMs - nowMs, MillisPerDay);
    var timeline :=
      if currentStatus == "completed" then Completed
      else if nowMs > endMs then Overdue
      else if daysRemaining <= 7 then ExpiringSoon
      else if daysRemaining <= 30 then ApproachingDeadline
      else OnTrack;
    ContractStatus(daysRemaining, timeline, UrgencyOf(timeline), ProgressOf(progress))
  }

  /**
   * For a contract not yet completed, the timeline position is decided by
   * the time left before the end date alone: past it, within 7 days, within
   * 30 days, or further out.
   */
  lemma TimelineByTimeLeft(startMs: int, endMs: int, progress: int, currentStatus: string, nowMs: int)
    requires currentStatus != "completed"
    ensures
      var r := CalculateContractStatus(startMs, endMs, progress, currentStatus, nowMs);
      var left := endMs - nowMs;
      (r.timeline == Overdue <==> left < 0)
      && (r.timeline == ExpiringSoon <==> 0 <= left <= 7 * MillisPerDay)
      && (r.timeline == ApproachingDeadline <==> 7 * MillisPerDay < left <= 30 * MillisPerDay)
      && (r.timeline == OnTrack <==> 30 * MillisPerDay < left)
      && (r.timeline != Overdue ==> r.daysRemaining >= 0)
  {
    var left := endMs - nowMs;
    CeilDivAtMost(left, MillisPerDay, 7);
    CeilDivAtMost(left, MillisPerDay, 30);
    CeilDivAtMost(left, MillisPerDay, -1);
  }

  /** Only a completed status yields the `completed` timeline. */
  lemma CompletedOnlyFromStatus(startMs: int, endMs: int, progress: int, currentStatus: string, nowMs: int)
    ensures CalculateContractStatus(startMs, endMs, progress, currentStatus, nowMs).timeline == Completed
        <==> currentStatus == "completed"
  {
  }

  /** The whitespace `String.prototype.trim` removes. */
  predicate IsJsWhitespace(c: char)
  {
    c == ' ' || c == '\t' || c == '\n' || c == '\U{000B}' || c == '\U{000C}' || c == '\r'
    || c == '\U{00A0}' || c == '\U{1680}' || ('\U{2000}' <= c <= '\U{200A}')
    || c == '\U{2028}' || c == '\U{2029}' || c == '\U{202F}' || c == '\U{205F}'
    || c == '\U{3000}' || c == '\U{FEFF}'
  }

  /** `s.trim()`: s without its leading and trailing whitespace. */
  function Trim(s: string): (r: string)
    ensures |r| <= |s|
    ensures r == [] || (!IsJsWhitespace(r[0]) && !IsJsWhitespace(r[|r| - 1]))
    decreases |s|
  {
    if |s| > 0 && IsJsWhitespace(s[0]) then Trim(s[1..])
    else if |s| > 0 && IsJsWhitespace(s[|s| - 1]) then Trim(s[..|s| - 1])
    else s
  }

  /**
   * Trimming keeps one contiguous stretch of the input and drops only
   * whitespace around it; with the no-whitespace ends of `Trim`'s own
   * contract, that stretch is the largest such one.
   */
  lemma {:induction false} TrimIsInfix(s: string)
    ensures exists i, j | 0 <= i <= j <= |s| :: Trim(s) == s[i..j] && AllWhitespace(s[..i]) && AllWhitespace(s[j..])
    decreases |s|
  {
    if |s| > 0 && IsJsWhitespace(s[0]) {
      TrimIsInfix(s[1..]);
      var i, j :| 0 <= i <= j <= |s[1..]| && Trim(s[1..]) == s[1..][i..j] && AllWhitespace(s[1..][..i]) && AllWhitespace(s[1..][j..]);
      TrimFrontStep(s, i, j);
      assert Trim(s) == s[i + 1..j + 1] && AllWhitespace(s[..i + 1]) && AllWhitespace(s[j + 1..]);
    } else if |s| > 0 && IsJsWhitespace(s[|s| - 1]) {
      TrimIsInfix(s[..|s| - 1]);
      var i, j :| 0 <= i <= j <= |s| - 1 && Trim(s[..|s| - 1]) == s[..|s| - 1][i..j]
        && AllWhitespace(s[..|s| - 1][..i]) && AllWhitespace(s[..|s| - 1][j..]);
      TrimBackStep(s, i, j);
      assert Trim(s) == s[i..j] && AllWhitespace(s[..i]) && AllWhitespace(s[j..]);
    } else {
      assert Trim(s) == s[0..|s|] && AllWhitespace(s[..0]) && AllWhitespace(s[|s|..]);
    }
  }

  lemma TrimFrontStep(s: string, i: nat, j: nat)
    requires |s| > 0 && IsJsWhitespace(s[0]) && i <= j <= |s| - 1
    requires Trim(s[1..]) == s[1..][i..j] && AllWhitespace(s[1..][..i]) && AllWhitespace(s[1..][j..])
    ensures Trim(s) == s[i + 1..j + 1] && AllWhitespace(s[..i + 1]) && AllWhitespace(s[j + 1..])
  {
    var rest := s[1..];
    assert rest[i..j] == s[i + 1..j + 1];
    assert s[..i + 1] == [s[0]] + rest[..i];
    assert s[j + 1..] == rest[j..];
  }

  lemma TrimBackStep(s: string, i: nat, j: nat)
    requires |s| > 0 && !IsJsWhitespace(s[0]) && IsJsWhitespace(s[|s| - 1]) && i <= j <= |s| - 1
    requires var init := s[..|s| - 1];
      Trim(init) == init[i..j] && AllWhitespace(init[..i]) && AllWhitespace(init[j..])
    ensures Trim(s) == s[i..j] && AllWhitespace(s[..i]) && AllWhitespace(s[j..])
  {
    var init := s[..|s| - 1];
    assert init[i..j] == s[i..j];
    assert init[..i] == s[..i];
    assert s[j..] == init[j..] + [s[|s| - 1]];
  }

  predicate AllWhitespace(s: string)
  {
    forall k | 0 <= k < |s| :: IsJsWhitespace(s[k])
  }

  /** Trimming only drops characters. */
  lemma {:induction false} TrimOnlyDrops(s: string)
    ensures multiset(Trim(s)) <= multiset(s)
    decreases |s|
  {
    if |s| > 0 && IsJsWhitespace(s[0]) {
      assert s == [s[0]] + s[1..];
      TrimOnlyDrops(s[1..]);
    } else if |s| > 0 && IsJsWhitespace(s[|s| - 1]) {
      assert s == s[..|s| - 1] + [s[|s| - 1]];
      TrimOnlyDrops(s[..|s| - 1]);
    }
  }

  /** `s.replace(/[<>]/g, "")`. */
  function RemoveAngleBrackets(s: string): (r: string)
    ensures |r| <= |s|
    ensures '<' !in r && '>' !in r
    ensures ('<' !in s && '>' !in s) ==> r == s
  {
    if s == [] then []
    else
      var init := s[..|s| - 1];
      var last := s[|s| - 1];
      assert s == init + [last];
      if last == '<' || last == '>' then RemoveAngleBrackets(init)
      else RemoveAngleBrackets(init) + [last]
  }

  /** Bracket removal works character by character: it distributes over concatenation. */
  lemma {:induction false} RemoveAngleBracketsConcat(a: string, b: string)
    ensures RemoveAngleBrackets(a + b) == RemoveAngleBrackets(a) + RemoveAngleBrackets(b)
    decreases |b|
  {
    if b == [] {
      assert a + b == a;
    } else {
      var init := b[..|b| - 1];
      RemoveAngleBracketsConcat(a, init);
      assert (a + b)[..|a + b| - 1] == a + init;
      assert (a + b)[|a + b| - 1] == b[|b| - 1];
    }
  }

  /** A single character: a bracket disappears, any other character stays. */
  lemma RemoveAngleBracketsChar(c: char)
    ensures RemoveAngleBrackets([c]) == if c == '<' || c == '>' then [] else [c]
  {
    assert [c][..0] == [];
  }

  /** Removing brackets only drops characters, and only brackets. */
  lemma {:induction false} RemoveAngleBracketsOnlyDrops(s: string)
    ensures multiset(RemoveAngleBrackets(s)) <= multiset(s)
    ensures forall c | c != '<' && c != '>' :: multiset(RemoveAngleBrackets(s))[c] == multiset(s)[c]
  {
    if s != [] {
      var init := s[..|s| - 1];
      assert s == init + [s[|s| - 1]];
      RemoveAngleBracketsOnlyDrops(init);
    }
  }

  /**
   * Non-strings pass through; a string is trimmed and stripped of every
   * angle bracket.
   */
  function SanitizeInput(input: Value): (r: Value)
    ensures !input.Str? ==> r == input
    ensures input.Str? ==> r.Str? && '<' !in r.s && '>' !in r.s && |r.s| <= |input.s|
  {
    match input
    case Str(s) => Str(RemoveAngleBrackets(Trim(s)))
    case _ => input
  }

  /** Sanitising a string only ever loses characters. */
  lemma SanitizeOnlyDrops(s: string)
    ensures multiset(SanitizeInput(Str(s)).s) <= multiset(s)
  {
    TrimOnlyDrops(s);
    RemoveAngleBracketsOnlyDrops(Trim(s));
  }

  /** A string with no brackets and no surrounding whitespace is already clean. */
  lemma SanitizeKeepsCleanText(s: string)
    requires '<' !in s && '>' !in s
    requires s == [] || (!IsJsWhitespace(s[0]) && !IsJsWhitespace(s[|s| - 1]))
    ensures SanitizeInput(Str(s)) == Str(s)
  {
  }

  /**
   * Trimming happens before the brackets go, so removing a bracket can
   * uncover whitespace that survives: sanitising twice can change more.
   */
  lemma SanitizeNotIdempotent()
    ensures SanitizeInput(Str("< a")) == Str(" a")
    ensures SanitizeInput(Str(" a")) == Str("a")
  {
    BracketUncoversSpace();
    SpaceTrimmed();
  }

  lemma BracketUncoversSpace()
    ensures SanitizeInput(Str("< a")) == Str(" a")
  {
    var s := "< a";
    assert !IsJsWhitespace(s[0]) && !IsJsWhitespace(s[2]);
    assert Trim(s) == s;
    assert s[..2] == "< " && "< "[..1] == "<" && "<"[..0] == "";
  }

  lemma SpaceTrimmed()
    ensures SanitizeInput(Str(" a")) == Str("a")
  {
    var s := " a";
    assert IsJsWhitespace(s[0]) && s[1..] == "a";
    assert !IsJsWhitespace('a');
    assert Trim("a") == "a";
    assert Trim(s) == "a";
    assert "a"[..0] == "";
    assert RemoveAngleBrackets("a") == "a";
  }

  datatype Pagination = Pagination(
    page: int, limit: int, total: int, totalPages: int,
    hasNext: bool, hasPrev: bool, nextPage: Option<int>, prevPage: Option<int>)

  /** Pagination metadata for a page of `limit` items out of `total`. */
  function GeneratePagination(page: int, limit: int, total: int): (r: Pagination)
    requires limit > 0
    ensures (r.totalPages - 1) * limit < total <= r.totalPages * limit
    ensures r.page == page && r.limit == limit && r.total == total
    ensures r.hasNext <==> page < r.totalPages
    ensures r.hasPrev <==> page > 1
    ensures r.nextPage.Some? <==> r.hasNext
    ensures r.prevPage.Some? <==> r.hasPrev
    ensures r.nextPage.Some? ==> r.nextPage.value == page + 1
    ensures r.prevPage.Some? ==> r.prevPage.value == page - 1
  {
    var totalPages := CeilDiv(total, limit);
    var hasNext := page < totalPages;
    var hasPrev := page > 1;
    Pagination(page, limit, total, totalPages, hasNext, hasPrev,
               if hasNext then Some(page + 1) else None,
               if hasPrev then Some(page - 1) else None)
  }

  /**
   * A next page is offered exactly when items remain after the current
   * page, and it is the page after this one, itself a page that holds
   * items; a previous page exactly when this is not the first, and it is
   * the page before; from page 1 on, both neighbours lie within
   * 1..totalPages.
   */
  lemma PaginationNeighbours(page: int, limit: int, total: int)
    requires limit > 0
    ensures
      var r := GeneratePagination(page, limit, total);
      (r.hasNext <==> page * limit < total)
      && (r.hasPrev <==> page >= 2)
      && (r.nextPage.Some? ==> r.nextPage.value == page + 1 && r.nextPage.value <= r.totalPages)
      && (r.prevPage.Some? ==> r.prevPage.value == page - 1 && 1 <= r.prevPage.value)
      && (page >= 1 && r.nextPage.Some? ==> 2 <= r.nextPage.value)
  {
    var r := GeneratePagination(page, limit, total);
    CeilDivAtMost(total, limit, page);
  }

  /** No items means no pages and no next page. */
  lemma PaginationEmpty(page: int, limit: int)
    requires limit > 0
    ensures GeneratePagination(page, limit, 0).totalPages == 0
    ensures page >= 0 ==> !GeneratePagination(page, limit, 0).hasNext
  {
    CeilDivUnique(0, limit, 0);
  }

  function UpperChar(c: char): char
  {
    if 'a' <= c <= 'z' then (c as int - 'a' as int + 'A' as int) as char else c
  }

  /** `s.toUpperCase()` for ASCII letters. */
  function ToUpper(s: string): (r: string)
    ensures |r| == |s|
    ensures forall i | 0 <= i < |s| :: r[i] == UpperChar(s[i])
  {
    seq(|s|, i requires 0 <= i < |s| => UpperChar(s[i]))
  }

  /** Upper-casing leaves no lower-case ASCII letter and is idempotent. */
  lemma ToUpperIdempotent(s: string)
    ensures forall i | 0 <= i < |ToUpper(s)| :: !('a' <= ToUpper(s)[i] <= 'z')
    ensures ToUpper(ToUpper(s)) == ToUpper(s)
  {
  }

  /**
   * A row for the audit table.  `oldValues`/`newValues` hold the value that
   * is serialised with `JSON.stringify`, `None` standing for SQL NULL.
   */
  datatype AuditLogData = AuditLogData(
    tableName: Value, recordId: Value, action: string,
    oldValues: Option<Value>, newValues: Option<Value>,
    userId: Value, ipAddress: Value, userAgent: Value)

  function CreateAuditLogData(tableName: Value, recordId: Value, action: string, oldValues: Value, newValues: Value,
                              userId: Value, ipAddress: Value, userAgent: Value): (r: AuditLogData)
    ensures r.action == ToUpper(action)
    ensures r.oldValues.None? <==> !Truthy(oldValues)
    ensures r.newValues.None? <==> !Truthy(newValues)
    ensures r.oldValues.Some? ==> r.oldValues.value == oldValues
    ensures r.newValues.Some? ==> r.newValues.value == newValues
  {
    AuditLogData(tableName, recordId, ToUpper(action),
                 if Truthy(oldValues) then Some(oldValues) else None,
                 if Truthy(newValues) then Some(newValues) else None,
                 userId, ipAddress, userAgent)
  }

  /** An object payload, even an empty one, is always recorded; `null`, `undefined`, `0` and `""` never are. */
  lemma AuditValuesRecorded(o: Object, action: string)
    ensures CreateAuditLogData(Null, Null, action, Obj(o), Null, Null, Null, Null).oldValues == Some(Obj(o))
    ensures CreateAuditLogData(Null, Null, action, Obj(o), Null, Null, Null, Null).newValues == None
  {
  }
}
