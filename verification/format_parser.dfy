/**
  `parse_format_string`: one loop for short strings, a two-pass search for long ones.  `Parse`
  is the common specification; what the handler is told is recorded as a sequence of tokens,
  a run of text being one token per character.
*/
module FormatParser {
  import opened Options

  /** An argument reference: the next one, by index, or by name. */
  datatype Arg = Auto | Index(n: nat) | Name(s: string)

  datatype Token = Ch(c: char) | Field(arg: Arg, specs: Option<string>)

  datatype Error =
    | InvalidFormatString
    | MissingBrace
    | UnknownSpecifier
    | UnmatchedBrace
    | Rejected(message: string)

  datatype SpecResult = Refused(error: Error) | Consumed(n: nat)

  /**
    What the handler decides, given everything it has been told so far: whether it accepts an
    argument, whether it accepts a field without specifiers, and where specifiers end.
  */
  datatype Handler = Handler(
    argId: (seq<Token>, Arg) -> Option<Error>,
    field: (seq<Token>, Arg) -> Option<Error>,
    specs: (seq<Token>, Arg, string) -> SpecResult)

  /** What the handler has been told, and the error that ended the parse. */
  datatype Outcome = Outcome(tokens: seq<Token>, error: Option<Error>)

  const INT_MAX := 0x7fff_ffff
  const U32 := 0x1_0000_0000
  const SHORT := 32

  function Text(s: string): seq<Token> {
    seq(|s|, i requires 0 <= i < |s| => Ch(s[i]))
  }

  // ---------------------------------------------------------------------------
  // Argument ids

  predicate IsDigit(c: char) { '0' <= c <= '9' }

  function DigitValue(c: char): nat
    requires IsDigit(c)
  {
    c as int - '0' as int
  }

  predicate AllDigits(s: string) { forall i | 0 <= i < |s| :: IsDigit(s[i]) }

  function NumberOf(s: string): nat
    requires AllDigits(s)
  {
    if s == [] then 0 else 10 * NumberOf(s[..|s|-1]) + DigitValue(s[|s|-1])
  }

  predicate IsNameStart(c: char) { 'a' <= c <= 'z' || 'A' <= c <= 'Z' || c == '_' }
  predicate IsNameChar(c: char) { IsNameStart(c) || IsDigit(c) }

  /** How many of the first characters satisfy `p`. */
  function Prefix(s: string, p: char -> bool): (n: nat)
    ensures n <= |s| && (forall i | 0 <= i < n :: p(s[i])) && (n < |s| ==> !p(s[n]))
  {
    if s == [] || !p(s[0]) then 0 else 1 + Prefix(s[1..], p)
  }

  lemma PrefixIs(s: string, p: char -> bool, n: nat)
    requires n <= |s| && (forall i | 0 <= i < n :: p(s[i])) && (n < |s| ==> !p(s[n]))
    ensures Prefix(s, p) == n
  {
  }

  /** The value `parse_nonnegative_int` gives back for a run of digits: leading zeros count as digits. */
  function Clamp(digits: string, errorValue: int): int
    requires AllDigits(digits)
  {
    if |digits| <= 10 && NumberOf(digits) <= INT_MAX then NumberOf(digits) else errorValue
  }

  datatype ArgResult = BadId | Id(arg: Arg, n: nat)

  /** `parse_arg_id` on the characters after the brace. */
  function ParseArgId(s: string): (r: ArgResult)
    requires s != []
    ensures r.Id? ==> r.n <= |s| && (r.arg.Auto? <==> r.n == 0)
  {
    if s[0] == '}' || s[0] == ':' then Id(Auto, 0)
    else if IsDigit(s[0]) then
      var n := if s[0] == '0' then 1 else Prefix(s, IsDigit);
      if n == |s| || (s[n] != '}' && s[n] != ':') then BadId
      else Id(Index(if s[0] == '0' then 0 else Clamp(s[..n], INT_MAX)), n)
    else if !IsNameStart(s[0]) then BadId
    else
      var n := Prefix(s, IsNameChar);
      assert n > 0;
      Id(Name(s[..n]), n)
  }

  // ---------------------------------------------------------------------------
  // Replacement fields

  datatype FieldResult = Failed(error: Error) | Parsed(token: Token, n: nat)

  /** `on_format_specs` gives back a position between the one it was called with and the end. */
  function Specs(h: Handler, hist: seq<Token>, arg: Arg, s: string): (r: SpecResult)
    ensures r.Consumed? ==> r.n <= |s|
  {
    match h.specs(hist, arg, s)
    case Refused(e) => Refused(e)
    case Consumed(n) => Consumed(if n <= |s| then n else |s|)
  }

  /** A field ended by its closing brace, `n` characters long. */
  function Plain(h: Handler, hist: seq<Token>, arg: Arg, n: nat): FieldResult {
    match h.field(hist, arg)
    case Some(e) => Failed(e)
    case None => Parsed(Field(arg, None), n)
  }

  function WithSpecs(h: Handler, hist: seq<Token>, arg: Arg, s: string, at: nat): (r: FieldResult)
    requires at <= |s|
    ensures r.Parsed? ==> at < r.n <= |s|
  {
    match Specs(h, hist, arg, s[at..])
    case Refused(e) => Failed(e)
    case Consumed(k) =>
      if at + k == |s| || s[at + k] != '}' then Failed(UnknownSpecifier)
      else Parsed(Field(arg, Some(s[at..at + k])), at + k + 1)
  }

  /** `parse_replacement_field` at an opening brace. */
  function ParseField(h: Handler, hist: seq<Token>, s: string): (r: FieldResult)
    requires s != [] && s[0] == '{'
    ensures r.Parsed? ==> 2 <= r.n <= |s|
  {
    if |s| == 1 then Failed(InvalidFormatString)
    else if s[1] == '{' then Parsed(Ch('{'), 2)
    else match ParseArgId(s[1..])
      case BadId => Failed(InvalidFormatString)
      case Id(arg, k) =>
        if h.argId(hist, arg).Some? then Failed(h.argId(hist, arg).value)
        else if 1 + k == |s| then Failed(MissingBrace)
        else if s[1 + k] == '}' then Plain(h, hist, arg, k + 2)
        else if s[1 + k] == ':' then WithSpecs(h, hist, arg, s, k + 2)
        else Failed(MissingBrace)
  }

  /** Parsing the rest `s`, with `pending` text not yet handed over. */
  function Parse(h: Handler, s: string, hist: seq<Token>, pending: string): Outcome
    decreases |s|
  {
    if s == [] then Outcome(hist + Text(pending), None)
    else if s[0] == '{' then
      var told := hist + Text(pending);
      match ParseField(h, told, s)
      case Failed(e) => Outcome(told, Some(e))
      case Parsed(t, n) => Parse(h, s[n..], told + [t], [])
    else if s[0] == '}' then
      if |s| == 1 || s[1] != '}' then Outcome(hist, Some(UnmatchedBrace))
      else Parse(h, s[2..], hist + Text(pending + ['}']), [])
    else Parse(h, s[1..], hist, pending + [s[0]])
  }

  // ---------------------------------------------------------------------------
  // The loops

  /** `parse_nonnegative_int`, in wrapping 32-bit arithmetic. */
  method ParseNonnegativeInt(s: string, begin: nat, errorValue: int) returns (value: int, p: nat)
    requires begin < |s| && IsDigit(s[begin])
    ensures p == begin + Prefix(s[begin..], IsDigit) && begin < p
    ensures AllDigits(s[begin..p]) && value == Clamp(s[begin..p], errorValue)
  {
    var v, prev;
    v, prev, p := ScanDigits(s, begin);
    assert s[begin..p][p - begin - 1] == s[p - 1];
    NotWrapped(s[begin..p]);
    if p - begin <= 9 {
      value := v;
    } else if p - begin == 10 && prev * 10 + DigitValue(s[p - 1]) <= INT_MAX {
      value := v;
    } else {
      value := errorValue;
    }
  }

  /** The loop over the digits: `value` wraps and `prev` is `value` one digit earlier. */
  method ScanDigits(s: string, begin: nat) returns (v: nat, prev: nat, p: nat)
    requires begin < |s| && IsDigit(s[begin])
    ensures begin < p <= |s| && p == begin + Prefix(s[begin..], IsDigit)
    ensures AllDigits(s[begin..p]) && AllDigits(s[begin..p][..p - begin - 1])
    ensures v == NumberOf(s[begin..p]) % U32 && prev == NumberOf(s[begin..p][..p - begin - 1]) % U32
  {
    v, prev, p := DigitValue(s[begin]), 0, begin + 1;
    ghost var t := s[begin..p];
    assert t[..0] == [];
    while p < |s| && IsDigit(s[p])
      invariant begin < p <= |s| && t == s[begin..p] && AllDigits(t)
      invariant v == NumberOf(t) % U32 && prev == NumberOf(t[..|t|-1]) % U32
      decreases |s| - p
    {
      Wrapping(NumberOf(t), DigitValue(s[p]));
      assert (t + [s[p]])[..|t|] == t;
      prev := v;
      v := (v * 10 + DigitValue(s[p])) % U32;
      t := t + [s[p]];
      p := p + 1;
    }
    assert forall i | 0 <= i < p - begin :: s[begin..][i] == t[i];
    PrefixIs(s[begin..], IsDigit, p - begin);
  }

  /** Up to ten digits the value before the last digit has not wrapped. */
  lemma NotWrapped(t: string)
    requires t != [] && AllDigits(t)
    ensures |t| <= 9 ==> NumberOf(t) < 1_000_000_000
    ensures |t| <= 10 ==> NumberOf(t[..|t|-1]) < 1_000_000_000
  {
    NumberBelow(t);
    NumberBelow(t[..|t|-1]);
    TenPowers();
    if |t| <= 9 { TenMono(|t|, 9); }
    if |t| <= 10 { TenMono(|t| - 1, 9); }
  }

  function Ten(n: nat): nat { if n == 0 then 1 else 10 * Ten(n - 1) }

  lemma TenPowers()
    ensures Ten(9) == 1_000_000_000
  {
    assert Ten(4) == 10_000;
    assert Ten(8) == 100_000_000;
  }

  lemma {:induction false} TenMono(m: nat, n: nat)
    requires m <= n
    ensures Ten(m) <= Ten(n)
  {
    if m < n { TenMono(m, n - 1); }
  }

  lemma {:induction false} NumberBelow(s: string)
    requires AllDigits(s)
    ensures NumberOf(s) < Ten(|s|)
  {
    if s != [] { NumberBelow(s[..|s|-1]); }
  }

  lemma Wrapping(n: nat, d: nat)
    ensures (n % U32 * 10 + d) % U32 == (10 * n + d) % U32
  {
    var q := n / U32;
    assert 10 * n + d == n % U32 * 10 + d + U32 * (10 * q);
    DropMultiple(n % U32 * 10 + d, 10 * q);
  }

  lemma {:induction false} DropMultiple(a: nat, q: nat)
    ensures (a + U32 * q) % U32 == a % U32
  {
    if q > 0 { DropMultiple(a, q - 1); }
  }

  /** The loop over the characters of a name. */
  method NameEnd(s: string, begin: nat) returns (it: nat)
    requires begin < |s| && IsNameStart(s[begin])
    ensures it == begin + Prefix(s[begin..], IsNameChar)
  {
    it := begin + 1;
    while it < |s| && IsNameChar(s[it])
      invariant begin < it <= |s| && forall i | begin <= i < it :: IsNameChar(s[i])
      decreases |s| - it
    {
      it := it + 1;
    }
    PrefixIs(s[begin..], IsNameChar, it - begin);
  }

  method ParseArgument(s: string, begin: nat) returns (r: ArgResult)
    requires begin < |s|
    ensures r == ParseArgId(s[begin..])
  {
    ghost var t := s[begin..];
    var c := s[begin];
    if c == '}' || c == ':' { return Id(Auto, 0); }
    if IsDigit(c) {
      var index, p := 0, begin + 1;
      if c != '0' { index, p := ParseNonnegativeInt(s, begin, INT_MAX); }
      assert c != '0' ==> s[begin..p] == t[..p - begin];
      if p == |s| || (s[p] != '}' && s[p] != ':') { return BadId; }
      return Id(Index(index), p - begin);
    }
    if !IsNameStart(c) { return BadId; }
    var it := NameEnd(s, begin);
    assert s[begin..it] == t[..it - begin];
    return Id(Name(s[begin..it]), it - begin);
  }

  method ParseReplacementField(h: Handler, hist: seq<Token>, s: string, begin: nat) returns (r: FieldResult)
    requires begin < |s| && s[begin] == '{'
    ensures r == ParseField(h, hist, s[begin..])
  {
    ghost var t := s[begin..];
    var p := begin + 1;
    if p == |s| { return Failed(InvalidFormatString); }
    if s[p] == '{' { return Parsed(Ch('{'), 2); }
    var id := ParseArgument(s, p);
    assert s[p..] == t[1..];
    if id.BadId? { return Failed(InvalidFormatString); }
    var rejected := h.argId(hist, id.arg);
    if rejected.Some? { return Failed(rejected.value); }
    p := p + id.n;
    if p < |s| && s[p] == '}' {
      r := Plain(h, hist, id.arg, id.n + 2);
    } else if p < |s| && s[p] == ':' {
      r := WithSpecs(h, hist, id.arg, s[begin..], id.n + 2);
    } else {
      r := Failed(MissingBrace);
    }
  }

  lemma TextStep(h: Handler, s: string, begin: nat, p: nat, hist: seq<Token>)
    requires begin <= p < |s| && s[p] != '{' && s[p] != '}'
    ensures Parse(h, s[p..], hist, s[begin..p]) == Parse(h, s[p + 1..], hist, s[begin..p + 1])
  {
    assert s[p..][1..] == s[p + 1..];
    assert s[begin..p] + [s[p]] == s[begin..p + 1];
  }

  lemma CloseStep(h: Handler, s: string, begin: nat, p: nat, hist: seq<Token>)
    requires begin <= p < |s| && s[p] == '}'
    ensures Parse(h, s[p..], hist, s[begin..p]) ==
            if p + 1 == |s| || s[p + 1] != '}' then Outcome(hist, Some(UnmatchedBrace))
            else Parse(h, s[p + 2..], hist + Text(s[begin..p + 1]), [])
  {
    FirstTwo(s, p);
    assert s[begin..p] + ['}'] == s[begin..p + 1];
  }

  lemma FirstTwo(s: string, p: nat)
    requires p < |s|
    ensures |s[p..]| == |s| - p && s[p..][0] == s[p]
    ensures p + 1 < |s| ==> s[p..][1] == s[p + 1] && s[p..][2..] == s[p + 2..]
  {
  }

  lemma FieldStep(h: Handler, s: string, p: nat, hist: seq<Token>, pending: string)
    requires p < |s| && s[p] == '{'
    ensures var told := hist + Text(pending);
            var field := ParseField(h, told, s[p..]);
            Parse(h, s[p..], hist, pending) ==
            if field.Failed? then Outcome(told, Some(field.error))
            else Parse(h, s[p + field.n..], told + [field.token], [])
  {
    var field := ParseField(h, hist + Text(pending), s[p..]);
    if field.Parsed? { assert s[p..][field.n..] == s[p + field.n..]; }
  }

  /** The loop for strings of fewer than 32 characters. */
  method ParseShort(h: Handler, s: string) returns (r: Outcome)
    ensures r == Parse(h, s, [], [])
  {
    var hist: seq<Token> := [];
    var begin, p := 0, 0;
    ghost var goal := Parse(h, s, [], []);
    assert s[0..] == s && s[0..0] == [];
    while p < |s|
      invariant 0 <= begin <= p <= |s|
      invariant Parse(h, s[p..], hist, s[begin..p]) == goal
      decreases |s| - p
    {
      var failed;
      hist, begin, p, failed := ShortTurn(h, s, hist, begin, p, goal);
      if failed.Some? { return Outcome(hist, failed); }
    }
    r := Outcome(hist + Text(s[begin..]), None);
    assert s[p..] == [] && s[begin..] == s[begin..p];
  }

  /** Text and field handed over, for either loop. */
  method FieldTurn(h: Handler, s: string, told: seq<Token>, pending: string, at: nat, ghost goal: Outcome)
    returns (hist: seq<Token>, p: nat, failed: Option<Error>)
    requires at < |s| && s[at] == '{' && Parse(h, s[at..], told, pending) == goal
    ensures failed.Some? ==> goal == Outcome(hist, failed)
    ensures failed.None? ==> at < p <= |s| && Parse(h, s[p..], hist, []) == goal
  {
    hist := told + Text(pending);
    var field := ParseReplacementField(h, hist, s, at);
    FieldGoal(h, s, told, pending, at, hist, field, goal);
    if field.Failed? { return hist, at, Some(field.error); }
    return hist + [field.token], at + field.n, None;
  }

  lemma FieldGoal(h: Handler, s: string, told: seq<Token>, pending: string, at: nat, hist: seq<Token>,
                  field: FieldResult, goal: Outcome)
    requires at < |s| && s[at] == '{' && Parse(h, s[at..], told, pending) == goal
    requires hist == told + Text(pending) && field == ParseField(h, hist, s[at..])
    ensures field.Failed? ==> goal == Outcome(hist, Some(field.error))
    ensures field.Parsed? ==> at + field.n <= |s| && Parse(h, s[at + field.n..], hist + [field.token], []) == goal
  {
    FieldStep(h, s, at, told, pending);
  }

  /** One turn of the loop: a character of text, a doubled brace or a field. */
  method ShortTurn(h: Handler, s: string, told: seq<Token>, from: nat, at: nat, ghost goal: Outcome)
    returns (hist: seq<Token>, begin: nat, p: nat, failed: Option<Error>)
    requires from <= at < |s| && Parse(h, s[at..], told, s[from..at]) == goal
    ensures failed.Some? ==> goal == Outcome(hist, failed)
    ensures failed.None? ==> begin <= p <= |s| && at < p && Parse(h, s[p..], hist, s[begin..p]) == goal
  {
    var c := s[at];
    hist, begin, p, failed := told, from, at + 1, None;
    if c == '{' {
      hist, p, failed := FieldTurn(h, s, told, s[from..at], at, goal);
      begin := p;
      if failed.None? { assert s[begin..p] == []; }
    } else if c == '}' {
      CloseStep(h, s, from, at, told);
      if p == |s| || s[p] != '}' { failed := Some(UnmatchedBrace); return; }
      hist := told + Text(s[from..p]);
      p := p + 1;
      begin := p;
      assert s[begin..p] == [];
    } else {
      TextStep(h, s, from, at, told);
    }
  }

  /** `find`: the first occurrence of `c`. */
  method Find(s: string, first: nat, last: nat, c: char) returns (found: bool, p: nat)
    requires first <= last <= |s|
    ensures first <= p <= last && c !in s[first..p]
    ensures found <==> p < last
    ensures found ==> s[p] == c
  {
    p := first;
    while p < last && s[p] != c
      invariant first <= p <= last && c !in s[first..p]
    {
      p := p + 1;
    }
    found := p < last;
  }

  /** The writer of the long path on a text without opening braces. */
  function Write(t: string, hist: seq<Token>, pending: string): Outcome
    decreases |t|
  {
    if t == [] then Outcome(hist + Text(pending), None)
    else if t[0] != '}' then Write(t[1..], hist, pending + [t[0]])
    else if |t| == 1 || t[1] != '}' then Outcome(hist, Some(UnmatchedBrace))
    else Write(t[2..], hist + Text(pending + ['}']), [])
  }

  lemma {:induction false} SkipPlain(t: string, k: nat, hist: seq<Token>, pending: string)
    requires k <= |t| && '}' !in t[..k]
    ensures Write(t, hist, pending) == Write(t[k..], hist, pending + t[..k])
    decreases k
  {
    if k == 0 {
      assert t[0..] == t && pending + t[..0] == pending;
    } else {
      assert t[..k][0] == t[0];
      assert t[1..][..k - 1] == t[..k][1..] && t[1..][k - 1..] == t[k..];
      SkipPlain(t[1..], k - 1, hist, pending + [t[0]]);
      assert pending + [t[0]] + t[..k][1..] == pending + t[..k];
    }
  }

  /** The writer jumps from one closing brace to the next. */
  lemma WriteJump(t: string, k: nat, hist: seq<Token>)
    requires k <= |t| && '}' !in t[..k] && (k < |t| ==> t[k] == '}')
    ensures Write(t, hist, []) ==
            if k == |t| then Outcome(hist + Text(t), None)
            else if k + 1 == |t| || t[k + 1] != '}' then Outcome(hist, Some(UnmatchedBrace))
            else Write(t[k + 2..], hist + Text(t[..k + 1]), [])
  {
    SkipPlain(t, k, hist, []);
    assert [] + t[..k] == t[..k];
    if k < |t| {
      assert t[..k] + ['}'] == t[..k + 1];
      if k + 1 < |t| { assert t[k..][2..] == t[k + 2..]; }
    } else {
      assert t[..k] == t;
    }
  }

  lemma Slices(s: string, a: nat, b: nat, c: nat)
    requires a <= b <= c <= |s|
    ensures s[a..c][..b - a] == s[a..b] && s[a..c][b - a..] == s[b..c]
  {
  }

  lemma WriteOn(s: string, begin: nat, p: nat, end: nat, hist: seq<Token>)
    requires begin <= p <= end <= |s| && '}' !in s[begin..p] && (p < end ==> s[p] == '}')
    ensures Write(s[begin..end], hist, []) ==
            if p == end then Outcome(hist + Text(s[begin..end]), None)
            else if p + 1 == end || s[p + 1] != '}' then Outcome(hist, Some(UnmatchedBrace))
            else Write(s[p + 2..end], hist + Text(s[begin..p + 1]), [])
  {
    Slices(s, begin, p, end);
    WriteJump(s[begin..end], p - begin, hist);
    if p + 1 < end {
      Slices(s, begin, p + 1, end);
      Slices(s, begin, p + 2, end);
    }
  }

  method WriteText(s: string, from: nat, end: nat, told: seq<Token>) returns (r: Outcome)
    requires from <= end <= |s|
    ensures r == Write(s[from..end], told, [])
  {
    var hist, begin := told, from;
    assert Text([]) == [];
    if begin == end { return Outcome(hist, None); }
    while true
      invariant from <= begin <= end
      invariant Write(s[from..end], told, []) == Write(s[begin..end], hist, [])
      decreases end - begin
    {
      var found, p := Find(s, begin, end, '}');
      WriteOn(s, begin, p, end, hist);
      if !found { return Outcome(hist + Text(s[begin..end]), None); }
      p := p + 1;
      if p == end || s[p] != '}' { return Outcome(hist, Some(UnmatchedBrace)); }
      hist := hist + Text(s[begin..p]);
      begin := p + 1;
    }
  }

  /** Text up to an opening brace or the end is parsed as the writer writes it. */
  lemma {:induction false} WriteIsParse(h: Handler, t: string, rest: string, hist: seq<Token>, pending: string)
    requires '{' !in t && (rest == [] || rest[0] == '{')
    ensures var w := Write(t, hist, pending);
            Parse(h, t + rest, hist, pending) == if w.error.Some? then w else Parse(h, rest, w.tokens, [])
    decreases |t|
  {
    var s := t + rest;
    if t == [] {
      assert s == rest;
      assert Text([]) == [] && hist + Text(pending) + [] == hist + Text(pending);
    } else if t[0] != '}' {
      assert s[1..] == t[1..] + rest;
      WriteIsParse(h, t[1..], rest, hist, pending + [t[0]]);
    } else if |t| > 1 && t[1] == '}' {
      assert s[2..] == t[2..] + rest;
      WriteIsParse(h, t[2..], rest, hist + Text(pending + ['}']), []);
    }
  }

  /** The two-pass path for the other strings. */
  method ParseLong(h: Handler, s: string) returns (r: Outcome)
    ensures r == Parse(h, s, [], [])
  {
    var hist: seq<Token> := [];
    var begin := 0;
    ghost var goal := Parse(h, s, [], []);
    assert s[0..] == s && Text([]) == [];
    while begin < |s|
      invariant 0 <= begin <= |s|
      invariant Parse(h, s[begin..], hist, []) == goal
      decreases |s| - begin
    {
      var found, p := true, begin;
      if s[begin] != '{' { found, p := Find(s, begin + 1, |s|, '{'); }
      var end := if found then p else |s|;
      assert '{' !in s[begin..end] by {
        assert p > begin ==> s[begin..p] == [s[begin]] + s[begin + 1..p];
      }
      assert s[begin..] == s[begin..end] + s[end..];
      WriteIsParse(h, s[begin..end], s[end..], hist, []);
      var w := WriteText(s, begin, end, hist);
      if w.error.Some? || !found { return w; }
      var failed;
      hist, begin, failed := FieldTurn(h, s, w.tokens, [], p, goal);
      if failed.Some? { return Outcome(hist, failed); }
    }
    r := Outcome(hist, None);
  }

  /** Which path is taken does not show: for every string and handler the same tokens and the same error. */
  method ParseFormatString(h: Handler, s: string) returns (r: Outcome)
    ensures r == Parse(h, s, [], [])
  {
    if |s| < SHORT {
      r := ParseShort(h, s);
    } else {
      r := ParseLong(h, s);
    }
  }

  // ---------------------------------------------------------------------------
  // Round trip

  /** The decimal digits of a number, without leading zeros. */
  function Dec(n: nat): (s: string)
    ensures s != [] && AllDigits(s) && (s[0] == '0' <==> n == 0)
  {
    if n < 10 then [(n + '0' as int) as char] else Dec(n / 10) + [(n % 10 + '0' as int) as char]
  }

  lemma {:induction false} DecNumber(n: nat)
    ensures NumberOf(Dec(n)) == n
  {
    if n >= 10 {
      DecNumber(n / 10);
      assert Dec(n)[..|Dec(n)|-1] == Dec(n / 10);
    } else {
      assert Dec(n)[..0] == [];
    }
  }

  lemma {:induction false} DecLength(n: nat, k: nat)
    requires k > 0 && n < Ten(k)
    ensures |Dec(n)| <= k
  {
    if n >= 10 {
      assert Ten(k) == 10 * Ten(k - 1);
      if k > 1 { DecLength(n / 10, k - 1); }
    }
  }

  function ShowArg(a: Arg): string {
    match a
    case Auto => []
    case Index(n) => Dec(n)
    case Name(s) => s
  }

  /** An argument that can be written down. */
  predicate Writable(a: Arg) {
    match a
    case Auto => true
    case Index(n) => n <= INT_MAX
    case Name(s) => s != [] && IsNameStart(s[0]) && forall i | 0 <= i < |s| :: IsNameChar(s[i])
  }

  /** A token as a format string: braces doubled, fields in braces. */
  function Show(t: Token): string {
    match t
    case Ch(c) => if c == '{' || c == '}' then [c, c] else [c]
    case Field(a, None) => ['{'] + ShowArg(a) + ['}']
    case Field(a, Some(specs)) => ['{'] + ShowArg(a) + [':'] + specs + ['}']
  }

  function ShowAll(ts: seq<Token>): string {
    if ts == [] then [] else Show(ts[0]) + ShowAll(ts[1..])
  }

  /** The handler takes the field wherever it stands, and ends its specifiers where they end. */
  ghost predicate Accepts(h: Handler, a: Arg, specs: Option<string>) {
    && Writable(a)
    && (forall hist :: h.argId(hist, a) == None)
    && (specs.None? ==> forall hist :: h.field(hist, a) == None)
    && (specs.Some? ==> forall hist, rest: string :: rest != [] && rest[0] == '}' ==>
          h.specs(hist, a, specs.value + rest) == Consumed(|specs.value|))
  }

  ghost predicate Legible(h: Handler, ts: seq<Token>) {
    forall i | 0 <= i < |ts| && ts[i].Field? :: Accepts(h, ts[i].arg, ts[i].specs)
  }

  lemma ShownArgId(a: Arg, rest: string)
    requires Writable(a) && rest != [] && (rest[0] == '}' || rest[0] == ':')
    ensures ParseArgId(ShowArg(a) + rest) == Id(a, |ShowArg(a)|)
  {
    var t, n := ShowArg(a) + rest, |ShowArg(a)|;
    assert t[..n] == ShowArg(a);
    match a
    case Auto =>
    case Index(k) => ShownIndex(k, rest);
    case Name(s) => PrefixIs(t, IsNameChar, n);
  }

  lemma ShownIndex(k: nat, rest: string)
    requires k <= INT_MAX && rest != [] && (rest[0] == '}' || rest[0] == ':')
    ensures ParseArgId(Dec(k) + rest) == Id(Index(k), |Dec(k)|)
  {
    var t, n := Dec(k) + rest, |Dec(k)|;
    assert t[..n] == Dec(k) && t[n] == rest[0];
    DecClamp(k);
    if k == 0 { assert Dec(0) == ['0']; } else { PrefixIs(t, IsDigit, n); }
  }

  lemma DecClamp(k: nat)
    requires k <= INT_MAX
    ensures Clamp(Dec(k), INT_MAX) == k
  {
    DecNumber(k);
    TenPowers();
    assert Ten(10) == 10 * Ten(9);
    DecLength(k, 10);
  }

  lemma ShownPlain(h: Handler, hist: seq<Token>, a: Arg, rest: string)
    requires Accepts(h, a, None)
    ensures ParseField(h, hist, ['{'] + ShowArg(a) + ['}'] + rest) == Parsed(Field(a, None), |ShowArg(a)| + 2)
  {
    var s := ['{'] + ShowArg(a) + ['}'] + rest;
    assert s[1..] == ShowArg(a) + (['}'] + rest);
    ShownArgId(a, ['}'] + rest);
    NoBrace(a, ['}'] + rest);
    assert s[1..][|ShowArg(a)|] == '}';
  }

  lemma NoBrace(a: Arg, rest: string)
    requires Writable(a) && rest != [] && rest[0] != '{'
    ensures (ShowArg(a) + rest)[0] != '{'
  {
  }

  lemma ShownWithSpecs(h: Handler, hist: seq<Token>, a: Arg, specs: string, rest: string)
    requires Accepts(h, a, Some(specs))
    ensures ParseField(h, hist, ['{'] + ShowArg(a) + [':'] + specs + ['}'] + rest) ==
            Parsed(Field(a, Some(specs)), |ShowArg(a)| + |specs| + 3)
  {
    var shown := ShowArg(a);
    var s := ['{'] + shown + [':'] + specs + ['}'] + rest;
    var tail := [':'] + specs + ['}'] + rest;
    FieldShape(shown, specs, rest);
    ShownArgId(a, tail);
    NoBrace(a, tail);
    ColonField(h, hist, a, s, |shown|);
    ShownSpecs(h, hist, a, specs, s, |shown| + 2);
  }

  lemma FieldShape(shown: string, specs: string, rest: string)
    ensures var s := ['{'] + shown + [':'] + specs + ['}'] + rest;
            var at := |shown| + 2;
            && at + |specs| < |s| && s[0] == '{' && s[1..] == shown + ([':'] + specs + ['}'] + rest)
            && s[at - 1] == ':' && s[at..at + |specs|] == specs && s[at + |specs|] == '}'
  {
  }

  lemma ColonField(h: Handler, hist: seq<Token>, a: Arg, s: string, k: nat)
    requires k + 1 < |s| && s[0] == '{' && s[1] != '{' && s[k + 1] == ':'
    requires ParseArgId(s[1..]) == Id(a, k) && h.argId(hist, a) == None
    ensures ParseField(h, hist, s) == WithSpecs(h, hist, a, s, k + 2)
  {
  }

  lemma ShownSpecs(h: Handler, hist: seq<Token>, a: Arg, specs: string, s: string, at: nat)
    requires Accepts(h, a, Some(specs)) && at + |specs| < |s|
    requires s[at..at + |specs|] == specs && s[at + |specs|] == '}'
    ensures WithSpecs(h, hist, a, s, at) == Parsed(Field(a, Some(specs)), at + |specs| + 1)
  {
    var rest := s[at + |specs|..];
    assert s[at..] == specs + rest && rest[0] == '}';
  }

  /** One written token: text joins what is pending, anything else is handed over at once. */
  lemma ParseToken(h: Handler, t: Token, rest: string, hist: seq<Token>, pending: string)
    requires t.Field? ==> Accepts(h, t.arg, t.specs)
    ensures Parse(h, Show(t) + rest, hist, pending) ==
            if t.Ch? && t.c != '{' && t.c != '}' then Parse(h, rest, hist, pending + [t.c])
            else Parse(h, rest, hist + Text(pending) + [t], [])
  {
    var s := Show(t) + rest;
    assert s[|Show(t)|..] == rest;
    match t
    case Ch(c) =>
      if c == '}' { assert hist + Text(pending + ['}']) == hist + Text(pending) + [t]; }
    case Field(a, None) => ShownPlain(h, hist + Text(pending), a, rest);
    case Field(a, Some(specs)) => ShownWithSpecs(h, hist + Text(pending), a, specs, rest);
  }

  lemma TextSnoc(hist: seq<Token>, pending: string, c: char, ts: seq<Token>)
    requires ts != [] && ts[0] == Ch(c)
    ensures hist + Text(pending + [c]) + ts[1..] == hist + Text(pending) + ts
  {
    assert Text(pending + [c]) == Text(pending) + [Ch(c)];
    assert ts == [Ch(c)] + ts[1..];
  }

  lemma TokenSnoc(told: seq<Token>, ts: seq<Token>)
    requires ts != []
    ensures told + [ts[0]] + Text([]) + ts[1..] == told + ts
  {
    assert Text([]) == [] && ts == [ts[0]] + ts[1..];
  }

  /** A format string written from tokens is parsed back to exactly those tokens. */
  lemma {:induction false} ParseShown(h: Handler, ts: seq<Token>, hist: seq<Token>, pending: string)
    requires Legible(h, ts)
    ensures Parse(h, ShowAll(ts), hist, pending) == Outcome(hist + Text(pending) + ts, None)
    decreases |ts|
  {
    var told := hist + Text(pending);
    if ts == [] {
      assert told + ts == told;
    } else {
      var t, tail := ts[0], ts[1..];
      ParseToken(h, t, ShowAll(tail), hist, pending);
      assert Legible(h, tail);
      if t.Ch? && t.c != '{' && t.c != '}' {
        ParseShown(h, tail, hist, pending + [t.c]);
        TextSnoc(hist, pending, t.c, ts);
      } else {
        ParseShown(h, tail, told + [t], []);
        TokenSnoc(told, ts);
      }
    }
  }

  /** What the parser makes of a written format string, on either path. */
  lemma FormatRoundTrip(h: Handler, ts: seq<Token>)
    requires Legible(h, ts)
    ensures Parse(h, ShowAll(ts), [], []) == Outcome(ts, None)
  {
    ParseShown(h, ts, [], []);
  }

  // ---------------------------------------------------------------------------
  // Errors

  /** A token that the parser hands over at once, where other text is kept until it has to be. */
  predicate AtOnce(t: Token) {
    t.Field? || t.c == '{' || t.c == '}'
  }

  /** What has been handed over when the tokens `ts` have been read; the rest is text. */
  function HandedOver(ts: seq<Token>): (k: nat)
    ensures k <= |ts| && forall i | k <= i < |ts| :: ts[i].Ch?
  {
    if ts == [] then 0 else if AtOnce(ts[|ts|-1]) then |ts| else HandedOver(ts[..|ts|-1])
  }

  function Chars(ts: seq<Token>): string
    requires forall i | 0 <= i < |ts| :: ts[i].Ch?
  {
    seq(|ts|, i requires 0 <= i < |ts| => ts[i].c)
  }

  lemma {:induction false} ShowAllSnoc(ts: seq<Token>, t: Token)
    ensures ShowAll(ts + [t]) == ShowAll(ts) + Show(t)
  {
    if ts == [] {
      assert ts + [t] == [t];
      assert [t][1..] == [];
    } else {
      assert (ts + [t])[0] == ts[0] && (ts + [t])[1..] == ts[1..] + [t];
      ShowAllSnoc(ts[1..], t);
      assert Show(ts[0]) + (ShowAll(ts[1..]) + Show(t)) == Show(ts[0]) + ShowAll(ts[1..]) + Show(t);
    }
  }

  /** After the written tokens the parser stands before `tail` with those handed over and the rest pending. */
  lemma {:induction false} ParseWritten(h: Handler, ts: seq<Token>, tail: string)
    requires Legible(h, ts)
    ensures Parse(h, ShowAll(ts) + tail, [], []) == Before(h, ts, tail)
    decreases |ts|
  {
    if ts == [] {
      assert ShowAll(ts) + tail == tail && Chars(ts[0..]) == [];
    } else {
      var t, init := ts[|ts|-1], ts[..|ts|-1];
      assert ts == init + [t];
      ParseWritten(h, init, Show(t) + tail);
      WrittenBefore(init, t, tail);
      assert t.Field? ==> Accepts(h, t.arg, t.specs);
      BeforeOne(h, init, t, tail);
    }
  }

  function Before(h: Handler, ts: seq<Token>, tail: string): Outcome {
    var k := HandedOver(ts);
    Parse(h, tail, ts[..k], Chars(ts[k..]))
  }

  lemma BeforeOne(h: Handler, init: seq<Token>, t: Token, tail: string)
    requires t.Field? ==> Accepts(h, t.arg, t.specs)
    ensures Before(h, init, Show(t) + tail) == Before(h, init + [t], tail)
  {
    assert (init + [t])[..|init|] == init;
    TokenAfter(h, init, t, HandedOver(init), tail);
    if AtOnce(t) {
      assert (init + [t])[..|init| + 1] == init + [t];
      assert Chars((init + [t])[|init| + 1..]) == [];
    }
  }

  lemma WrittenBefore(init: seq<Token>, t: Token, tail: string)
    ensures ShowAll(init) + (Show(t) + tail) == ShowAll(init + [t]) + tail
  {
    ShowAllSnoc(init, t);
    assert ShowAll(init) + Show(t) + tail == ShowAll(init) + (Show(t) + tail);
  }

  lemma TokenAfter(h: Handler, init: seq<Token>, t: Token, k: nat, tail: string)
    requires k <= |init| && (t.Field? ==> Accepts(h, t.arg, t.specs)) && forall i | k <= i < |init| :: init[i].Ch?
    ensures AtOnce(t) ==>
              Parse(h, Show(t) + tail, init[..k], Chars(init[k..])) == Parse(h, tail, init + [t], [])
    ensures !AtOnce(t) ==>
              Parse(h, Show(t) + tail, init[..k], Chars(init[k..])) ==
              Parse(h, tail, (init + [t])[..k], Chars((init + [t])[k..]))
  {
    ParseToken(h, t, tail, init[..k], Chars(init[k..]));
    OneMoreToken(init, t, k);
  }

  lemma OneMoreToken(init: seq<Token>, t: Token, k: nat)
    requires k <= |init| && forall i | k <= i < |init| :: init[i].Ch?
    ensures !AtOnce(t) ==> Chars(init[k..]) + [t.c] == Chars((init + [t])[k..]) && (init + [t])[..k] == init[..k]
    ensures init[..k] + Text(Chars(init[k..])) + [t] == init + [t]
    ensures (init + [t])[..|init| + 1] == init + [t] && (init + [t])[|init| + 1..] == []
  {
    assert Text(Chars(init[k..])) == init[k..];
    assert init[..k] + init[k..] == init;
    assert (init + [t])[k..] == init[k..] + [t];
  }

  /** An error inside a field comes after everything written before it. */
  lemma FieldError(h: Handler, ts: seq<Token>, tail: string, e: Error)
    requires Legible(h, ts) && tail != [] && tail[0] == '{'
    requires ParseField(h, ts, tail) == Failed(e)
    ensures Parse(h, ShowAll(ts) + tail, [], []) == Outcome(ts, Some(e))
  {
    ParseWritten(h, ts, tail);
    var k := HandedOver(ts);
    AllTold(ts, k);
    FieldFails(h, ts, ts[..k], Chars(ts[k..]), tail, e);
  }

  lemma AllTold(ts: seq<Token>, k: nat)
    requires k <= |ts| && forall i | k <= i < |ts| :: ts[i].Ch?
    ensures ts[..k] + Text(Chars(ts[k..])) == ts
  {
    assert Text(Chars(ts[k..])) == ts[k..];
  }

  lemma FieldFails(h: Handler, ts: seq<Token>, hist: seq<Token>, pending: string, tail: string, e: Error)
    requires hist + Text(pending) == ts && tail != [] && tail[0] == '{' && ParseField(h, ts, tail) == Failed(e)
    ensures Parse(h, tail, hist, pending) == Outcome(ts, Some(e))
  {
  }

  /** A single closing brace: the text before it that is still pending is not handed over. */
  lemma UnmatchedBraceError(h: Handler, ts: seq<Token>, rest: string)
    requires Legible(h, ts) && (rest == [] || rest[0] != '}')
    ensures Parse(h, ShowAll(ts) + (['}'] + rest), [], []) == Outcome(ts[..HandedOver(ts)], Some(UnmatchedBrace))
  {
    ParseWritten(h, ts, ['}'] + rest);
  }

  /** The argument is asked for before anything else: what the handler refuses is an error whatever follows. */
  lemma RefusedArgument(h: Handler, ts: seq<Token>, a: Arg, rest: string)
    requires Legible(h, ts) && Writable(a) && rest != [] && (rest[0] == '}' || rest[0] == ':')
    requires h.argId(ts, a).Some?
    ensures Parse(h, ShowAll(ts) + (['{'] + (ShowArg(a) + rest)), [], []) == Outcome(ts, Some(h.argId(ts, a).value))
  {
    var tail := ['{'] + (ShowArg(a) + rest);
    ArgumentShown(a, rest);
    FieldError(h, ts, tail, h.argId(ts, a).value);
  }

  lemma ArgumentShown(a: Arg, rest: string)
    requires Writable(a) && rest != [] && (rest[0] == '}' || rest[0] == ':')
    ensures var tail := ['{'] + (ShowArg(a) + rest);
            && |tail| == 1 + |ShowArg(a)| + |rest| && tail[1..] == ShowArg(a) + rest && tail[1] != '{'
            && ParseArgId(tail[1..]) == Id(a, |ShowArg(a)|)
            && tail[1 + |ShowArg(a)|] == rest[0] && tail[1 + |ShowArg(a)| + 1..] == rest[1..]
  {
    var tail := ['{'] + (ShowArg(a) + rest);
    assert tail[1..] == ShowArg(a) + rest;
    ShownArgId(a, rest);
    NoBrace(a, rest);
    assert tail[1..][|ShowArg(a)|] == rest[0];
  }

  /** A field without specifiers that the handler refuses. */
  lemma RefusedField(h: Handler, ts: seq<Token>, a: Arg, rest: string)
    requires Legible(h, ts) && Writable(a) && h.argId(ts, a).None? && h.field(ts, a).Some?
    ensures Parse(h, ShowAll(ts) + (['{'] + (ShowArg(a) + (['}'] + rest))), [], []) ==
            Outcome(ts, Some(h.field(ts, a).value))
  {
    ArgumentShown(a, ['}'] + rest);
    FieldError(h, ts, ['{'] + (ShowArg(a) + (['}'] + rest)), h.field(ts, a).value);
  }

  lemma AfterColon(shown: string, rest: string)
    ensures var tail := ['{'] + (shown + ([':'] + rest));
            |tail| == |shown| + 2 + |rest| && tail[|shown| + 2..] == rest
  {
  }

  lemma SpecsFail(h: Handler, ts: seq<Token>, a: Arg, rest: string, e: Error)
    requires Legible(h, ts) && Writable(a) && h.argId(ts, a).None?
    requires var tail := ['{'] + (ShowArg(a) + ([':'] + rest));
             |tail| == |ShowArg(a)| + 2 + |rest| && WithSpecs(h, ts, a, tail, |ShowArg(a)| + 2) == Failed(e)
    ensures Parse(h, ShowAll(ts) + (['{'] + (ShowArg(a) + ([':'] + rest))), [], []) == Outcome(ts, Some(e))
  {
    var tail := ['{'] + (ShowArg(a) + ([':'] + rest));
    ArgumentShown(a, [':'] + rest);
    ColonField(h, ts, a, tail, |ShowArg(a)|);
    FieldError(h, ts, tail, e);
  }

  /** Specifiers that the handler refuses. */
  lemma RefusedSpecs(h: Handler, ts: seq<Token>, a: Arg, rest: string, e: Error)
    requires Legible(h, ts) && Writable(a) && h.argId(ts, a).None? && h.specs(ts, a, rest) == Refused(e)
    ensures Parse(h, ShowAll(ts) + (['{'] + (ShowArg(a) + ([':'] + rest))), [], []) == Outcome(ts, Some(e))
  {
    AfterColon(ShowArg(a), rest);
    SpecsFail(h, ts, a, rest, e);
  }

  /** Specifiers after which the handler does not stop at a closing brace. */
  lemma UnknownSpecs(h: Handler, ts: seq<Token>, a: Arg, rest: string, n: nat)
    requires Legible(h, ts) && Writable(a) && h.argId(ts, a).None? && h.specs(ts, a, rest) == Consumed(n)
    requires n >= |rest| || rest[n] != '}'
    ensures Parse(h, ShowAll(ts) + (['{'] + (ShowArg(a) + ([':'] + rest))), [], []) ==
            Outcome(ts, Some(UnknownSpecifier))
  {
    AfterColon(ShowArg(a), rest);
    SpecsRunOn(h, ts, a, ['{'] + (ShowArg(a) + ([':'] + rest)), |ShowArg(a)| + 2, rest, n);
    SpecsFail(h, ts, a, rest, UnknownSpecifier);
  }

  lemma SpecsRunOn(h: Handler, hist: seq<Token>, a: Arg, s: string, at: nat, rest: string, n: nat)
    requires at <= |s| && s[at..] == rest && h.specs(hist, a, rest) == Consumed(n)
    requires n >= |rest| || rest[n] != '}'
    ensures WithSpecs(h, hist, a, s, at) == Failed(UnknownSpecifier)
  {
    if n < |rest| { assert s[at..][n] == s[at + n]; }
  }

  /** A name followed by neither '}' nor ':', or by nothing: an error once the handler has accepted the name. */
  lemma MissingBraceError(h: Handler, ts: seq<Token>, name: string, rest: string)
    requires Legible(h, ts) && Writable(Name(name)) && h.argId(ts, Name(name)).None?
    requires rest == [] || (!IsNameChar(rest[0]) && rest[0] != '}' && rest[0] != ':')
    ensures Parse(h, ShowAll(ts) + (['{'] + (name + rest)), [], []) == Outcome(ts, Some(MissingBrace))
  {
    var tail := ['{'] + (name + rest);
    assert tail[1..] == name + rest;
    PrefixIs(name + rest, IsNameChar, |name|);
    assert (name + rest)[..|name|] == name;
    assert rest != [] ==> tail[1 + |name|] == rest[0];
    FieldError(h, ts, tail, MissingBrace);
  }

  /** An index followed by anything else is malformed, and the handler is not asked. */
  lemma MalformedIndex(h: Handler, ts: seq<Token>, digits: string, rest: string)
    requires Legible(h, ts) && AllDigits(digits) && digits != [] && (digits[0] == '0' ==> |digits| == 1)
    requires rest == [] || (rest[0] != '}' && rest[0] != ':' && (digits[0] != '0' ==> !IsDigit(rest[0])))
    ensures Parse(h, ShowAll(ts) + (['{'] + (digits + rest)), [], []) == Outcome(ts, Some(InvalidFormatString))
  {
    var tail := ['{'] + (digits + rest);
    assert tail[1..] == digits + rest;
    if digits[0] != '0' { PrefixIs(digits + rest, IsDigit, |digits|); }
    assert rest != [] ==> (digits + rest)[|digits|] == rest[0];
    FieldError(h, ts, tail, InvalidFormatString);
  }

  /** So is anything that begins no argument, and an opening brace at the end. */
  lemma MalformedArgument(h: Handler, ts: seq<Token>, rest: string)
    requires Legible(h, ts)
    requires rest == [] || (!IsDigit(rest[0]) && !IsNameStart(rest[0]) && rest[0] !in "{}:")
    ensures Parse(h, ShowAll(ts) + (['{'] + rest), [], []) == Outcome(ts, Some(InvalidFormatString))
  {
    var tail := ['{'] + rest;
    assert tail[1..] == rest;
    FieldError(h, ts, tail, InvalidFormatString);
  }

  /** An index too large for an `int` is taken for the largest one: the handler is asked for that. */
  lemma IndexThatDoesNotFit(h: Handler, ts: seq<Token>, digits: string, rest: string)
    requires Legible(h, ts) && AllDigits(digits) && digits != [] && digits[0] != '0' && NumberOf(digits) > 0x7fff_ffff
    ensures var a := Index(0x7fff_ffff);
            var r := Parse(h, ShowAll(ts) + (['{'] + (digits + (['}'] + rest))), [], []);
            && (h.argId(ts, a).Some? ==> r == Outcome(ts, Some(h.argId(ts, a).value)))
            && (h.argId(ts, a).None? && h.field(ts, a).Some? ==> r == Outcome(ts, Some(h.field(ts, a).value)))
  {
    var tail, a := ['{'] + (digits + (['}'] + rest)), Index(0x7fff_ffff);
    LargeIndex(digits, ['}'] + rest);
    assert tail[1..] == digits + (['}'] + rest);
    assert tail[1..][|digits|] == '}';
    if h.argId(ts, a).Some? {
      FieldError(h, ts, tail, h.argId(ts, a).value);
    } else if h.field(ts, a).Some? {
      FieldError(h, ts, tail, h.field(ts, a).value);
    }
  }

  lemma LargeIndex(digits: string, rest: string)
    requires AllDigits(digits) && digits != [] && digits[0] != '0' && NumberOf(digits) > 0x7fff_ffff
    requires rest != [] && rest[0] == '}'
    ensures ParseArgId(digits + rest) == Id(Index(0x7fff_ffff), |digits|)
  {
    PrefixIs(digits + rest, IsDigit, |digits|);
    assert (digits + rest)[..|digits|] == digits && (digits + rest)[|digits|] == '}';
  }

  /** The ASCII codes an identifier may begin with, and go on with. */
  lemma NameCharacters(c: char)
    ensures var code := c as int;
            && (IsNameStart(c) <==> 97 <= code <= 122 || 65 <= code <= 90 || code == 95)
            && (IsNameChar(c) <==> IsNameStart(c) || 48 <= code <= 57)
  {
  }
}
