/**
 Durations as text and as milliseconds (thirdparty/taskweft/tw_temporal.hpp). What the
 reader accepts is described by lists of components; integers are unbounded.
*/
module Durations {
  import opened Wrappers

  // ---- Digits ----

  predicate IsDigit(c: char) { '0' <= c <= '9' }
  function DigitOf(c: char): int { c as int - '0' as int }
  predicate AllDigits(s: string) { forall i :: 0 <= i < |s| ==> IsDigit(s[i]) }

  function NumberOf(s: string): int {
    if s == [] then 0 else NumberOf(s[..|s| - 1]) * 10 + DigitOf(s[|s| - 1])
  }

  /** How many digits the text starts with. */
  function Leading(s: string): (n: nat)
    ensures n <= |s| && AllDigits(s[..n]) && (n < |s| ==> !IsDigit(s[n]))
  {
    if s == [] || !IsDigit(s[0]) then 0
    else assert s[..1 + Leading(s[1..])] == [s[0]] + s[1..][..Leading(s[1..])]; 1 + Leading(s[1..])
  }

  lemma {:induction false} LeadingOf(a: string, b: string)
    requires AllDigits(a) && (b == [] || !IsDigit(b[0]))
    ensures Leading(a + b) == |a|
  {
    if a == [] {
      assert a + b == b;
    } else {
      assert (a + b)[1..] == a[1..] + b;
      LeadingOf(a[1..], b);
    }
  }

  /** std::to_string of a number that is not negative. */
  function Show(n: nat): (s: string)
    ensures s != [] && AllDigits(s) && NumberOf(s) == n
  {
    var last := [('0' as int + n % 10) as char];
    if n < 10 then
      assert NumberOf(last) == n by { assert last[..0] == []; }
      last
    else
      assert (Show(n / 10) + last)[..|Show(n / 10)|] == Show(n / 10);
      Show(n / 10) + last
  }

  /** A fraction in thousandths: three digits count, the rest are cut, missing ones are zeros. */
  function Milli(f: string): int {
    if |f| == 0 then 0
    else if |f| == 1 then NumberOf(f) * 100
    else if |f| == 2 then NumberOf(f) * 10
    else NumberOf(f[..3])
  }

  // ---- What a duration is ----

  datatype Letter = Y | Mo | W | D | H | Mi | S
  datatype Part = Part(whole: string, frac: Option<string>, letter: Letter)

  predicate IsTime(u: Letter) { u.H? || u.Mi? || u.S? }

  function Rank(u: Letter): int {
    match u case Y => 0 case Mo => 1 case D => 2 case H => 3 case Mi => 4 case S => 5 case W => 99
  }

  function Millis(u: Letter): int {
    match u
    case Y => 365 * 86400 * 1000
    case Mo => 30 * 86400 * 1000
    case W => 7 * 86400 * 1000
    case D => 86400 * 1000
    case H => 3600 * 1000
    case Mi => 60 * 1000
    case S => 1000
  }

  function CharOf(u: Letter): char {
    match u case Y => 'Y' case Mo => 'M' case W => 'W' case D => 'D' case H => 'H' case Mi => 'M' case S => 'S'
  }

  /** The unit a letter stands for before the T, and after it. */
  function LetterOf(c: char, inTime: bool): Option<Letter> {
    if !inTime then
      if c == 'Y' then Some(Y) else if c == 'M' then Some(Mo) else if c == 'W' then Some(W)
        else if c == 'D' then Some(D) else None
    else
      if c == 'H' then Some(H) else if c == 'M' then Some(Mi) else if c == 'S' then Some(S) else None
  }

  predicate PartOk(p: Part) {
    p.whole != [] && AllDigits(p.whole) && (p.frac.Some? ==> p.frac.value != [] && AllDigits(p.frac.value))
  }

  function Amount(whole: string, frac: Option<string>, u: Letter): int {
    NumberOf(whole) * Millis(u) + (if frac.Some? then Milli(frac.value) * (Millis(u) / 1000) else 0)
  }

  function Value(ps: seq<Part>): int {
    if ps == [] then 0 else Amount(ps[0].whole, ps[0].frac, ps[0].letter) + Value(ps[1..])
  }

  function Numeral(whole: string, frac: Option<string>): string {
    whole + (if frac.Some? then "." + frac.value else "")
  }

  /** The parts as text, with one T before the first of the time. */
  function Text(ps: seq<Part>, inTime: bool): string {
    if ps == [] then ""
    else
      var t := IsTime(ps[0].letter);
      (if t && !inTime then "T" else "") +
      (Numeral(ps[0].whole, ps[0].frac) + [CharOf(ps[0].letter)] + Text(ps[1..], inTime || t))
  }

  /** Where a reader stands. */
  datatype State = State(total: int, inTime: bool, frac: bool, week: bool, any: bool, rank: int)

  /** The state after one more part. */
  function After(st: State, whole: string, frac: Option<string>, u: Letter): State {
    State(st.total + Amount(whole, frac, u), st.inTime, frac.Some?, st.week || u.W?, true,
          if u.W? then st.rank else Rank(u))
  }

  /** Y, M, D, H, M, S in order, each at most once; weeks stand alone; a fraction comes last. */
  predicate Fits(st: State, u: Letter) {
    && !st.frac && !st.week
    && (u.W? ==> !st.any && !st.inTime)
    && (!u.W? ==> Rank(u) > st.rank)
    && (st.inTime ==> IsTime(u))
  }

  predicate Canonical(st: State, ps: seq<Part>)
    decreases |ps|
  {
    ps == [] ||
    (PartOk(ps[0]) && Fits(st, ps[0].letter) &&
     Canonical(After(st, ps[0].whole, ps[0].frac, ps[0].letter).(inTime := st.inTime || IsTime(ps[0].letter)), ps[1..]))
  }

  const Start := State(0, false, false, false, false, -1)

  // ---- Reading ----

  datatype Token = Token(whole: string, frac: Option<string>, letter: char, rest: string)

  /** A number, perhaps with a fraction, and the letter after it. */
  function ReadToken(s: string): Option<Token> {
    var n := Leading(s);
    var r := s[n..];
    if n == 0 || r == [] then None
    else if r[0] == '.' then
      var m := Leading(r[1..]);
      var q := r[1..][m..];
      if m == 0 || q == [] then None else Some(Token(s[..n], Some(r[1..][..m]), q[0], q[1..]))
    else Some(Token(s[..n], None, r[0], r[1..]))
  }

  /** What the rest of the text comes to; -1 if it is refused. */
  function Reading(s: string, st: State): int
    decreases |s|
  {
    if s == [] then st.total
    else if st.frac then -1
    else if s[0] == 'T' then
      if st.inTime || |s| == 1 then -1 else Reading(s[1..], st.(inTime := true))
    else
      match ReadToken(s)
      case None => -1
      case Some(t) =>
        TokenText(s, t);
        match LetterOf(t.letter, st.inTime)
        case None => -1
        case Some(u) =>
          if (u.W? && (st.any || st.inTime)) || st.week || (!u.W? && Rank(u) <= st.rank) then -1
          else Reading(t.rest, After(st, t.whole, t.frac, u))
  }

  function Parsed(dur: string): int {
    if dur == [] || dur[0] != 'P' then -1 else Reading(dur[1..], Start)
  }

  lemma TokenText(s: string, t: Token)
    requires ReadToken(s) == Some(t)
    ensures s == Numeral(t.whole, t.frac) + [t.letter] + t.rest && |t.rest| < |s| && s != [] && IsDigit(s[0])
    ensures t.whole != [] && AllDigits(t.whole) && (t.frac.Some? ==> t.frac.value != [] && AllDigits(t.frac.value))
  {
    hide NumberOf, AllDigits, Leading;
    var n := Leading(s);
    var r := s[n..];
    assert s == s[..n] + r;
    StartsWithDigit(s);
    if r[0] == '.' {
      var q := r[1..];
      var m := Leading(q);
      assert r == "." + q;
      FractionParts(s[..n], q, m);
    } else {
      assert r == [r[0]] + r[1..];
      assert s[..n] + "" == s[..n];
    }
  }

  lemma FractionParts(whole: string, q: string, m: nat)
    requires m < |q|
    ensures whole + ("." + q) == whole + ("." + q[..m]) + [q[m]] + q[m + 1..]
    ensures q[m..][0] == q[m] && q[m..][1..] == q[m + 1..]
  {
    assert q == q[..m] + [q[m]] + q[m + 1..];
  }

  lemma StartsWithDigit(s: string)
    requires Leading(s) > 0
    ensures s != [] && IsDigit(s[0])
  {
  }

  lemma ReadsToken(whole: string, frac: Option<string>, c: char, rest: string)
    requires whole != [] && AllDigits(whole) && (frac.Some? ==> frac.value != [] && AllDigits(frac.value))
    requires !IsDigit(c) && c != '.'
    ensures ReadToken(Numeral(whole, frac) + [c] + rest) == Some(Token(whole, frac, c, rest))
  {
    hide Leading, AllDigits;
    var s, tail := Numeral(whole, frac) + [c] + rest, [c] + rest;
    if frac.Some? {
      var r := "." + frac.value + tail;
      assert s == whole + r;
      Splits(whole, r);
      assert r[0] == '.' && r[1..] == frac.value + tail;
      Splits(frac.value, tail);
    } else {
      assert s == whole + tail;
      Splits(whole, tail);
    }
    assert tail[0] == c && tail[1..] == rest;
  }

  lemma Splits(a: string, b: string)
    requires AllDigits(a) && b != [] && !IsDigit(b[0])
    ensures Leading(a + b) == |a| && (a + b)[..|a|] == a && (a + b)[|a|..] == b
  {
    LeadingOf(a, b);
  }

  /** One part read: the step the reader takes. */
  lemma ReadsPart(s: string, st: State, t: Token, u: Letter)
    requires ReadToken(s) == Some(t) && LetterOf(t.letter, st.inTime) == Some(u)
    requires Fits(st, u)
    ensures |t.rest| < |s| && Reading(s, st) == Reading(t.rest, After(st, t.whole, t.frac, u))
  {
    hide ReadToken, After, Millis, AllDigits;
    TokenText(s, t);
    assert s[0] != 'T';
  }

  lemma LetterBack(u: Letter, inTime: bool)
    requires IsTime(u) == inTime
    ensures LetterOf(CharOf(u), inTime) == Some(u) && !IsDigit(CharOf(u)) && CharOf(u) != '.'
  {
  }

  /** Every canonical list of parts is read back to its value. */
  lemma {:induction false} ReadsCanonical(ps: seq<Part>, st: State)
    requires Canonical(st, ps)
    ensures Reading(Text(ps, st.inTime), st) == st.total + Value(ps)
    decreases |ps|
  {
    if ps != [] {
      var p, st1 := ps[0], st.(inTime := st.inTime || IsTime(ps[0].letter));
      CanonicalHead(st, ps);
      hide Reading, Text, Value, Canonical, Amount, Fits;
      ReadsCanonical(ps[1..], After(st1, p.whole, p.frac, p.letter));
      ReadsFirst(p, Text(ps[1..], st1.inTime), st, st1);
    }
  }

  /** The first part, what is left of the list, and what the text and the value are made of. */
  lemma CanonicalHead(st: State, ps: seq<Part>)
    requires ps != [] && Canonical(st, ps)
    ensures PartOk(ps[0]) && Fits(st, ps[0].letter)
    ensures var st1 := st.(inTime := st.inTime || IsTime(ps[0].letter));
      && Canonical(After(st1, ps[0].whole, ps[0].frac, ps[0].letter), ps[1..])
      && Text(ps, st.inTime) == (if st1 != st then "T" else "") + Body(ps[0], Text(ps[1..], st1.inTime))
      && Value(ps) == Amount(ps[0].whole, ps[0].frac, ps[0].letter) + Value(ps[1..])
  {
    hide Amount, Fits, PartOk, Numeral, CharOf;
  }

  function Body(p: Part, rest: string): string { Numeral(p.whole, p.frac) + [CharOf(p.letter)] + rest }

  lemma ReadsFirst(p: Part, rest: string, st: State, st1: State)
    requires PartOk(p) && Fits(st, p.letter) && st1 == st.(inTime := st.inTime || IsTime(p.letter))
    ensures Reading((if st1 != st then "T" else "") + Body(p, rest), st) ==
      Reading(rest, After(st1, p.whole, p.frac, p.letter))
  {
    hide Reading, ReadToken, Amount, LetterOf, AllDigits, CharOf, Numeral;
    LetterBack(p.letter, st1.inTime);
    ReadsToken(p.whole, p.frac, CharOf(p.letter), rest);
    ReadsPart(Body(p, rest), st1, Token(p.whole, p.frac, CharOf(p.letter), rest), p.letter);
    assert Body(p, rest) != [];
    ReadsT(Body(p, rest), st, st1);
  }

  lemma ReadsT(body: string, st: State, st1: State)
    requires st1 == st || (!st.inTime && st1 == st.(inTime := true) && body != [] && !st.frac)
    ensures Reading((if st1 != st then "T" else "") + body, st) == Reading(body, st1)
  {
    assert "" + body == body && ("T" + body)[1..] == body;
  }

  /** Whatever is read is a canonical list of parts, and its value is what was read. */
  lemma {:induction false} ReadIsCanonical(s: string, st: State) returns (ps: seq<Part>)
    requires Reading(s, st) >= 0
    ensures Canonical(st, ps) && Text(ps, st.inTime) == s && Reading(s, st) == st.total + Value(ps)
    decreases |s|
  {
    hide ReadToken, Millis, AllDigits, Numeral, CharOf, NumberOf, Milli, Amount;
    if s == [] { return []; }
    if s[0] == 'T' {
      ps := ReadIsCanonical(s[1..], st.(inTime := true));
      assert s == "T" + s[1..];
      assert ps != [];
      CanonicalFromT(st, ps);
      return;
    }
    var t := ReadToken(s).value;
    var u := LetterOf(t.letter, st.inTime).value;
    TokenText(s, t);
    LetterIs(t.letter, st.inTime, u);
    var p := Part(t.whole, t.frac, u);
    var rest := ReadIsCanonical(t.rest, After(st, t.whole, t.frac, u));
    ps := [p] + rest;
    assert ps[1..] == rest;
    var body := Numeral(t.whole, t.frac) + [t.letter] + Text(rest, st.inTime);
    assert Text(ps, st.inTime) == "" + body && "" + body == body;
  }

  lemma LetterIs(c: char, inTime: bool, u: Letter)
    requires LetterOf(c, inTime) == Some(u)
    ensures CharOf(u) == c && IsTime(u) == inTime
  {
  }

  /** The T itself changes no value and asks for a part of the time next. */
  lemma CanonicalFromT(st: State, ps: seq<Part>)
    requires ps != [] && Canonical(st.(inTime := true), ps) && !st.inTime
    ensures Canonical(st, ps) && Text(ps, false) == "T" + Text(ps, true)
  {
    var body := Numeral(ps[0].whole, ps[0].frac) + [CharOf(ps[0].letter)] + Text(ps[1..], true);
    assert "" + body == body;
  }

  /** The texts accepted are exactly the canonical ones, and each has the value of its parts. */
  lemma AcceptsExactlyCanonical(dur: string, v: int)
    ensures Parsed(dur) == v && v >= 0 <==> v >= 0 && exists ps :: IsTextOf(dur, ps) && v == Value(ps)
  {
    hide Reading, Canonical, Text, Value;
    if Parsed(dur) == v && v >= 0 {
      var ps := ReadIsCanonical(dur[1..], Start);
      assert dur == "P" + dur[1..];
      assert IsTextOf(dur, ps);
    }
    if v >= 0 && exists ps :: IsTextOf(dur, ps) && v == Value(ps) {
      var ps :| IsTextOf(dur, ps) && v == Value(ps);
      TextIsRead(dur, ps);
    }
  }

  predicate IsTextOf(dur: string, ps: seq<Part>) {
    Canonical(Start, ps) && dur == "P" + Text(ps, false)
  }

  lemma TextIsRead(dur: string, ps: seq<Part>)
    requires IsTextOf(dur, ps)
    ensures Parsed(dur) == Value(ps)
  {
    hide Reading, Canonical, Text, Value;
    ReadsCanonical(ps, Start);
    assert dur[1..] == Text(ps, false);
  }

  lemma NumberGrows(dur: string, i: nat, j: nat)
    requires i <= j < |dur|
    ensures NumberOf(dur[i..j + 1]) == NumberOf(dur[i..j]) * 10 + DigitOf(dur[j])
    ensures AllDigits(dur[i..j]) && IsDigit(dur[j]) ==> AllDigits(dur[i..j + 1])
  {
    assert dur[i..j + 1][..j - i] == dur[i..j];
    assert dur[i..j + 1][j - i] == dur[j];
  }

  /** The integer part: every digit from i on. */
  method ReadDigits(dur: string, i: nat) returns (whole: int, j: nat)
    requires i <= |dur|
    ensures i <= j <= |dur| && j - i == Leading(dur[i..]) && whole == NumberOf(dur[i..j])
  {
    whole, j := 0, i;
    while j < |dur| && IsDigit(dur[j])
      invariant i <= j <= |dur| && AllDigits(dur[i..j]) && whole == NumberOf(dur[i..j])
    {
      NumberGrows(dur, i, j);
      whole, j := whole * 10 + DigitOf(dur[j]), j + 1;
    }
    assert dur[i..] == dur[i..j] + dur[j..];
    LeadingOf(dur[i..j], dur[j..]);
  }

  /** The first three digits of a fraction, or fewer if there are fewer. */
  method ReadThree(dur: string, i: nat) returns (acc: int, j: nat)
    requires i <= |dur|
    ensures i <= j <= |dur| && j - i <= 3 && AllDigits(dur[i..j]) && acc == NumberOf(dur[i..j])
    ensures j - i < 3 && j < |dur| ==> !IsDigit(dur[j])
  {
    acc, j := 0, i;
    var n := 0;
    while j < |dur| && IsDigit(dur[j]) && n < 3
      invariant i <= j <= |dur| && n == j - i <= 3 && AllDigits(dur[i..j]) && acc == NumberOf(dur[i..j])
    {
      assert dur[i..j + 1][..j - i] == dur[i..j];
      acc, j, n := acc * 10 + DigitOf(dur[j]), j + 1, n + 1;
    }
  }

  method SkipDigits(dur: string, i: nat, from: nat) returns (j: nat)
    requires i <= from <= |dur| && AllDigits(dur[i..from])
    ensures from <= j <= |dur| && AllDigits(dur[i..j]) && (j < |dur| ==> !IsDigit(dur[j]))
    ensures from < |dur| && !IsDigit(dur[from]) ==> j == from
  {
    j := from;
    while j < |dur| && IsDigit(dur[j])
      invariant from <= j <= |dur| && AllDigits(dur[i..j])
      invariant from < |dur| && !IsDigit(dur[from]) ==> j == from
    {
      assert dur[i..j + 1] == dur[i..j] + [dur[j]];
      j := j + 1;
    }
  }

  method ScaleUp(acc: int, n: nat) returns (milli: int)
    requires n <= 3
    ensures milli == acc * (if n == 0 then 1000 else if n == 1 then 100 else if n == 2 then 10 else 1)
  {
    milli := acc;
    var k := n;
    while k < 3
      invariant n <= k <= 3
      invariant milli == acc * (if k - n == 0 then 1 else if k - n == 1 then 10 else if k - n == 2 then 100 else 1000)
    {
      milli, k := milli * 10, k + 1;
    }
  }

  /** The fraction: three digits count, the rest are passed over. */
  method ReadFraction(dur: string, i: nat) returns (milli: int, j: nat)
    requires i < |dur| && IsDigit(dur[i])
    ensures i < j <= |dur| && j - i == Leading(dur[i..]) && milli == Milli(dur[i..j])
  {
    var acc: int;
    acc, j := ReadThree(dur, i);
    var n := j - i;
    j := SkipDigits(dur, i, j);
    milli := ScaleUp(acc, n);
    LeadingAt(dur, i, j);
    hide Leading, NumberOf, AllDigits;
    ghost var f := dur[i..j];
    assert dur[i..i + n] == f[..n];
    assert n == |f| ==> f[..n] == f;
  }

  lemma LeadingAt(dur: string, i: nat, j: nat)
    requires i <= j <= |dur| && AllDigits(dur[i..j]) && (j < |dur| ==> !IsDigit(dur[j]))
    ensures Leading(dur[i..]) == j - i
  {
    assert dur[i..] == dur[i..j] + dur[j..];
    LeadingOf(dur[i..j], dur[j..]);
  }

  lemma WholeToken(dur: string, i: nat, j: nat)
    requires i < j <= |dur| && j - i == Leading(dur[i..]) && (j < |dur| ==> dur[j] != '.')
    ensures ReadToken(dur[i..]) == if j == |dur| then None else Some(Token(dur[i..j], None, dur[j], dur[j + 1..]))
  {
    hide Leading;
    var s := dur[i..];
    assert s[..j - i] == dur[i..j] && s[j - i..] == dur[j..];
    if j < |dur| { assert dur[j..][0] == dur[j] && dur[j..][1..] == dur[j + 1..]; }
  }

  lemma FractionToken(dur: string, i: nat, j: nat, k: nat)
    requires i < j < |dur| && j - i == Leading(dur[i..]) && dur[j] == '.' && j + 1 <= k <= |dur|
    requires k - (j + 1) == Leading(dur[j + 1..])
    ensures ReadToken(dur[i..]) ==
            if k == j + 1 || k == |dur| then None else Some(Token(dur[i..j], Some(dur[j + 1..k]), dur[k], dur[k + 1..]))
  {
    hide Leading;
    var s, r := dur[i..], dur[j + 1..];
    Slices(dur, i, j);
    Slices(dur, j, j + 1);
    Slices(dur, j + 1, k);
    if k < |dur| { Slices(dur, k, k + 1); }
    assert dur[j..][..1] == dur[j..j + 1];
  }

  lemma Slices(s: string, i: nat, j: nat)
    requires i <= j <= |s|
    ensures s[i..][..j - i] == s[i..j] && s[i..][j - i..] == s[j..]
  {
  }

  /** tw_parse_duration_ms */
  method Parse(dur: string) returns (ms: int)
    ensures ms == Parsed(dur)
  {
    hide Leading, ReadToken, AllDigits, NumberOf, Milli, Millis, LetterOf;
    if dur == [] || dur[0] != 'P' { return -1; }
    if |dur| == 1 { return 0; }
    var i, st := 1, Start;
    while i < |dur|
      invariant 1 <= i <= |dur| && Reading(dur[i..], st) == Parsed(dur)
    {
      assert dur[i..][0] == dur[i] && dur[i..][1..] == dur[i + 1..];
      if st.frac { return -1; }
      if dur[i] == 'T' {
        if st.inTime { return -1; }
        if i + 1 >= |dur| { return -1; }
        st, i := st.(inTime := true), i + 1;
      } else {
        var t, j := ParseToken(dur, i);
        if t.None? { return -1; }
        var u := LetterOf(t.value.letter, st.inTime);
        if u.None? { return -1; }
        if u.value.W? && (st.any || st.inTime) { return -1; }
        if st.week { return -1; }
        if !u.value.W? && Rank(u.value) <= st.rank { return -1; }
        var part := if t.value.hasFrac then t.value.milli * (Millis(u.value) / 1000) else 0;
        var rank := if u.value.W? then st.rank else Rank(u.value);
        st := State(st.total + t.value.whole * Millis(u.value) + part,
                    st.inTime, t.value.hasFrac, st.week || u.value.W?, true, rank);
        i := j;
      }
    }
    ms := st.total;
  }

  /** A token as the reader holds it: numbers instead of their digits. */
  datatype Held = Held(whole: int, hasFrac: bool, milli: int, letter: char)

  method ParseToken(dur: string, i: nat) returns (r: Option<Held>, j: nat)
    requires i < |dur|
    ensures r.None? <==> ReadToken(dur[i..]).None?
    ensures r.Some? ==> i < j <= |dur| && ReadToken(dur[i..]).value.rest == dur[j..]
    ensures r.Some? ==> var t := ReadToken(dur[i..]).value;
      && r.value.whole == NumberOf(t.whole) && r.value.hasFrac == t.frac.Some? && r.value.letter == t.letter
      && (t.frac.Some? ==> r.value.milli == Milli(t.frac.value))
  {
    hide Leading, ReadToken, AllDigits, NumberOf, Milli;
    if !IsDigit(dur[i]) {
      NoToken(dur, i);
      return None, i;
    }
    var whole: int;
    LeadingPositive(dur, i);
    whole, j := ReadDigits(dur, i);
    if j < |dur| && dur[j] == '.' {
      ghost var at := j;
      j := j + 1;
      if j >= |dur| || !IsDigit(dur[j]) {
        LeadingNone(dur, j);
        FractionToken(dur, i, at, j);
        return None, j;
      }
      var milli: int;
      milli, j := ReadFraction(dur, j);
      FractionToken(dur, i, at, j);
      if j >= |dur| { return None, j; }
      return Some(Held(whole, true, milli, dur[j])), j + 1;
    }
    WholeToken(dur, i, j);
    if j >= |dur| { return None, j; }
    return Some(Held(whole, false, 0, dur[j])), j + 1;
  }

  lemma NoToken(dur: string, i: nat)
    requires i < |dur| && !IsDigit(dur[i])
    ensures ReadToken(dur[i..]).None?
  {
    LeadingNone(dur, i);
  }

  lemma LeadingPositive(dur: string, i: nat)
    requires i < |dur| && IsDigit(dur[i])
    ensures Leading(dur[i..]) > 0
  {
  }

  lemma LeadingNone(dur: string, i: nat)
    requires i <= |dur| && (i < |dur| ==> !IsDigit(dur[i]))
    ensures Leading(dur[i..]) == 0
  {
  }

  // ---- Writing ----

  /** The thousandths of a second, three digits wide. */
  function Thousandths(milli: nat): (f: string)
    requires milli < 1000
    ensures |f| == 3 && AllDigits(f) && NumberOf(f) == milli
  {
    var f := [('0' as int + milli / 100) as char,
              ('0' as int + milli / 10 % 10) as char,
              ('0' as int + milli % 10) as char];
    assert f[..2][..1][..0] == [] && f[..2][..1] == [f[0]] && f[..2] == [f[0], f[1]];
    assert NumberOf(f[..1]) == milli / 100 by { assert f[..1][..0] == []; }
    assert f[..2][..1] == f[..1];
    assert NumberOf(f[..2]) == milli / 10;
    f
  }

  /** The fraction without its trailing zeros. */
  method TrimZeros(milli: nat) returns (f: string)
    requires 0 < milli < 1000
    ensures f != [] && AllDigits(f) && Milli(f) == milli
  {
    f := Thousandths(milli);
    assert f[..3] == f;
    while f[|f| - 1] == '0'
      invariant 1 <= |f| <= 3 && AllDigits(f) && Milli(f) == milli
      decreases |f|
    {
      var g := f[..|f| - 1];
      assert NumberOf(f) == NumberOf(g) * 10;
      assert |f| == 3 ==> f[..3] == f;
      assert |f| == 1 ==> g == [];
      f := g;
    }
  }

  /** tw_format_duration_ms: what it prints reads back as the same count. */
  method Format(ms: int) returns (out: string)
    ensures Parsed(out) == if ms < 0 then 0 else ms
  {
    var total := if ms < 0 then 0 else ms;
    var totalS, milli := total / 1000, total % 1000;
    var h := totalS / 3600;
    totalS := totalS - h * 3600;
    var m, s := totalS / 60, totalS % 60;
    out := "PT";
    var frac: Option<string> := None;
    if milli > 0 {
      var f := TrimZeros(milli);
      frac := Some(f);
    }
    out := AppendTime(out, h, m, s, frac);
    PrintedReadsBack(h, m, s, frac);
    SplitTime(total, h, m, s, milli);
  }

  lemma SplitTime(total: nat, h: nat, m: nat, s: nat, milli: nat)
    requires milli == total % 1000 && h == total / 1000 / 3600 && m == (total / 1000 - h * 3600) / 60
    requires s == (total / 1000 - h * 3600) % 60
    ensures h * 3600000 + m * 60000 + s * 1000 + milli == total
  {
  }

  method AppendTime(start: string, h: nat, m: nat, s: nat, frac: Option<string>) returns (out: string)
    ensures out == start + Printed(h, m, s, frac)
  {
    hide Show;
    out := start;
    if h > 0 { out := out + Show(h) + "H"; }
    ghost var hs := if h > 0 then Show(h) + "H" else "";
    assert out == start + hs;
    if m > 0 { out := out + Show(m) + "M"; }
    ghost var ms := if m > 0 then Show(m) + "M" else "";
    assert out == start + hs + ms;
    if s > 0 || frac.Some? || (h == 0 && m == 0) {
      out := out + Show(s);
      if frac.Some? { out := out + "." + frac.value; }
      out := out + "S";
    }
    ghost var ss := if Prints(s, frac, h == 0 && m == 0) then Numeral(Show(s), frac) + "S" else "";
    assert out == start + hs + ms + ss;
    Associate(start, hs, ms, ss);
  }

  lemma Associate(a: string, b: string, c: string, d: string)
    ensures a + b + c + d == a + (b + (c + d))
  {
  }

  predicate Prints(s: nat, frac: Option<string>, alone: bool) { s > 0 || frac.Some? || alone }

  /** What follows the T in a printed duration. */
  function Printed(h: nat, m: nat, s: nat, frac: Option<string>): string {
    (if h > 0 then Show(h) + "H" else "") + ((if m > 0 then Show(m) + "M" else "")
      + (if Prints(s, frac, h == 0 && m == 0) then Numeral(Show(s), frac) + "S" else ""))
  }

  /** One more part of the time in front. */
  lemma InFront(p: Part, rest: seq<Part>, st: State)
    requires PartOk(p) && IsTime(p.letter) && st.inTime && Fits(st, p.letter)
    requires Canonical(After(st, p.whole, p.frac, p.letter), rest)
    ensures Canonical(st, [p] + rest)
    ensures Text([p] + rest, true) == Numeral(p.whole, p.frac) + [CharOf(p.letter)] + Text(rest, true)
    ensures Value([p] + rest) == Amount(p.whole, p.frac, p.letter) + Value(rest)
  {
    hide Numeral, Amount, CharOf, After, PartOk;
    var ps := [p] + rest;
    assert ps[0] == p && ps[1..] == rest;
    var body := Numeral(p.whole, p.frac) + [CharOf(p.letter)] + Text(rest, true);
    assert Text(ps, true) == "" + body && "" + body == body;
    StaysInTime(st, p);
    assert After(st, p.whole, p.frac, p.letter).(inTime := true) == After(st, p.whole, p.frac, p.letter);
  }

  lemma StaysInTime(st: State, p: Part)
    requires st.inTime
    ensures After(st, p.whole, p.frac, p.letter).inTime
  {
  }

  lemma WholePart(n: nat, frac: Option<string>, u: Letter)
    requires frac.Some? ==> frac.value != [] && AllDigits(frac.value)
    ensures PartOk(Part(Show(n), frac, u))
    ensures Amount(Show(n), frac, u) ==
            n * Millis(u) + (if frac.Some? then Milli(frac.value) * (Millis(u) / 1000) else 0)
  {
  }

  lemma PrintedParts(h: nat, m: nat, s: nat, frac: Option<string>) returns (ps: seq<Part>)
    requires frac.Some? ==> frac.value != [] && AllDigits(frac.value)
    ensures ps != [] && Canonical(Start.(inTime := true), ps) && Text(ps, true) == Printed(h, m, s, frac)
    ensures Value(ps) == h * 3600000 + m * 60000 + s * 1000 + (if frac.Some? then Milli(frac.value) else 0)
  {
    hide Show, Numeral, Amount, Milli, PartOk, AllDigits, Text, Value, Canonical;
    var st0 := Start.(inTime := true);
    var st1 := if h > 0 then After(st0, Show(h), None, H) else st0;
    var st2 := if m > 0 then After(st1, Show(m), None, Mi) else st1;
    WholePart(h, None, H);
    WholePart(m, None, Mi);
    WholePart(s, frac, S);
    Empty(st2);
    ps := [];
    var text := "";
    if Prints(s, frac, h == 0 && m == 0) {
      Empty(After(st2, Show(s), frac, S));
      InFront(Part(Show(s), frac, S), [], st2);
      ps := [Part(Show(s), frac, S)] + [];
      text := Numeral(Show(s), frac) + "S";
      assert text + "" == text;
    }
    if m > 0 {
      InFront(Part(Show(m), None, Mi), ps, st1);
      ps := [Part(Show(m), None, Mi)] + ps;
    }
    text := (if m > 0 then Show(m) + "M" else "") + text;
    NoFraction(Show(m));
    if h > 0 {
      InFront(Part(Show(h), None, H), ps, st0);
      ps := [Part(Show(h), None, H)] + ps;
    }
    NoFraction(Show(h));
  }

  lemma NoFraction(s: string)
    ensures Numeral(s, None) == s
  {
    assert s + "" == s;
  }

  lemma Empty(st: State)
    ensures Canonical(st, []) && Text([], true) == "" && Value([]) == 0
  {
  }

  lemma PrintedReadsBack(h: nat, m: nat, s: nat, frac: Option<string>)
    requires frac.Some? ==> frac.value != [] && AllDigits(frac.value)
    ensures Parsed("PT" + Printed(h, m, s, frac)) ==
      h * 3600000 + m * 60000 + s * 1000 + (if frac.Some? then Milli(frac.value) else 0)
  {
    hide Printed, Text, Value, Canonical, Reading, Milli;
    var ps := PrintedParts(h, m, s, frac);
    CanonicalFromT(Start, ps);
    var dur := "PT" + Printed(h, m, s, frac);
    assert dur == "P" + Text(ps, false);
    TextIsRead(dur, ps);
  }

  // ---- What the letters stand for, and their order ----

  lemma {:induction false} DigitsCount(s: string)
    requires AllDigits(s)
    ensures NumberOf(s) >= 0
  {
    if s != [] { DigitsCount(s[..|s| - 1]); }
  }

  lemma MilliCounts(f: string)
    requires AllDigits(f)
    ensures Milli(f) >= 0
  {
    DigitsCount(f);
    if |f| >= 3 { DigitsCount(f[..3]); }
  }

  lemma AmountNotNegative(p: Part)
    requires PartOk(p)
    ensures Amount(p.whole, p.frac, p.letter) >= 0
  {
    hide NumberOf, Milli;
    DigitsCount(p.whole);
    if p.frac.Some? { MilliCounts(p.frac.value); }
    match p.letter case Y => case Mo => case W => case D => case H => case Mi => case S =>
  }

  /** No duration is negative. */
  lemma {:induction false} CanonicalNotNegative(st: State, ps: seq<Part>)
    requires Canonical(st, ps)
    ensures Value(ps) >= 0
    decreases |ps|
  {
    if ps != [] {
      var p := ps[0];
      AmountNotNegative(p);
      hide Amount, PartOk;
      CanonicalNotNegative(After(st, p.whole, p.frac, p.letter).(inTime := st.inTime || IsTime(p.letter)), ps[1..]);
    }
  }

  const Letters: seq<Letter> := [Y, Mo, D, H, Mi, S]

  /** Years, months, days, hours, minutes and seconds come in that order. */
  predicate Before(u: Letter, v: Letter) {
    exists i, j :: 0 <= i < j < |Letters| && Letters[i] == u && Letters[j] == v
  }

  lemma BeforeIsRank(u: Letter, v: Letter)
    ensures Before(u, v) <==> !u.W? && !v.W? && Rank(u) < Rank(v)
  {
    assert forall i :: 0 <= i < |Letters| ==> Rank(Letters[i]) == i;
    if !u.W? && !v.W? && Rank(u) < Rank(v) {
      assert Letters[Rank(u)] == u && Letters[Rank(v)] == v;
    }
  }

  /** The parts are well formed, a fraction comes last, and weeks stand alone. */
  predicate WellOrdered(ps: seq<Part>) {
    && (forall i :: 0 <= i < |ps| ==> PartOk(ps[i]))
    && (forall i :: 0 <= i < |ps| - 1 ==> ps[i].frac.None?)
    && (forall i, j :: 0 <= i < j < |ps| ==> Before(ps[i].letter, ps[j].letter))
  }

  /** The same, seen from where a reader stands. */
  predicate Follows(st: State, ps: seq<Part>) {
    ps == [] ||
    (&& !st.frac && !st.week
     && (forall i :: 0 <= i < |ps| ==> PartOk(ps[i]))
     && (forall i :: 0 <= i < |ps| - 1 ==> ps[i].frac.None?)
     && if ps[0].letter.W? then |ps| == 1 && !st.any && !st.inTime else Rises(st, ps))
  }

  predicate Rises(st: State, ps: seq<Part>) {
    && (forall i :: 0 <= i < |ps| ==> !ps[i].letter.W? && Rank(ps[i].letter) > st.rank)
    && (forall i, j :: 0 <= i < j < |ps| ==> Rank(ps[i].letter) < Rank(ps[j].letter))
  }

  lemma {:induction false} CanonicalFollows(st: State, ps: seq<Part>)
    requires st.inTime ==> st.rank >= Rank(H)
    ensures Canonical(st, ps) <==> Follows(st, ps)
    decreases |ps|
  {
    hide PartOk, Amount;
    if ps != [] {
      var p, rest := ps[0], ps[1..];
      var st1 := After(st, p.whole, p.frac, p.letter).(inTime := st.inTime || IsTime(p.letter));
      assert forall i :: 0 <= i < |rest| ==> rest[i] == ps[i + 1];
      if PartOk(p) && Fits(st, p.letter) {
        CanonicalFollows(st1, rest);
        if Follows(st, ps) { FollowsOn(st, ps, st1); }
        if Follows(st1, rest) { FollowsBack(st, ps, st1); }
      }
    }
  }

  lemma FollowsOn(st: State, ps: seq<Part>, st1: State)
    requires ps != [] && Fits(st, ps[0].letter) && Follows(st, ps)
    requires st1.frac == ps[0].frac.Some? && st1.week == (st.week || ps[0].letter.W?) && st1.any
    requires st1.rank == if ps[0].letter.W? then st.rank else Rank(ps[0].letter)
    ensures Follows(st1, ps[1..])
  {
    hide PartOk, Rank;
    var rest := ps[1..];
    if rest != [] {
      assert forall i :: 0 <= i < |rest| ==> rest[i] == ps[i + 1];
      assert PartOk(ps[0]) && ps[0].frac.None? && !ps[0].letter.W? && !ps[1].letter.W?;
      assert Rises(st1, rest);
    }
  }

  lemma FollowsBack(st: State, ps: seq<Part>, st1: State)
    requires ps != [] && PartOk(ps[0]) && Fits(st, ps[0].letter) && Follows(st1, ps[1..])
    requires st1.frac == ps[0].frac.Some? && st1.week == (st.week || ps[0].letter.W?) && st1.any
    requires st1.rank == if ps[0].letter.W? then st.rank else Rank(ps[0].letter)
    ensures Follows(st, ps)
  {
    hide PartOk, Rank;
    var rest := ps[1..];
    forall i | 0 < i < |ps| ensures ps[i] == rest[i - 1] { }
    if rest != [] {
      assert Rises(st1, rest);
      assert PartOk(rest[0]);
    }
    if !ps[0].letter.W? { assert Rises(st, ps); }
  }

  /** What is accepted, in the order of the letters alone. */
  lemma CanonicalExactly(ps: seq<Part>)
    ensures Canonical(Start, ps) <==> WellOrdered(ps)
  {
    hide Canonical, PartOk, Before;
    CanonicalFollows(Start, ps);
    forall i, j | 0 <= i < j < |ps|
      ensures Before(ps[i].letter, ps[j].letter) <==>
              !ps[i].letter.W? && !ps[j].letter.W? && Rank(ps[i].letter) < Rank(ps[j].letter)
    {
      BeforeIsRank(ps[i].letter, ps[j].letter);
    }
    if WellOrdered(ps) && |ps| > 1 {
      assert Before(ps[0].letter, ps[1].letter);
      forall i | 0 <= i < |ps| ensures !ps[i].letter.W? {
        assert i > 0 ==> Before(ps[0].letter, ps[i].letter);
      }
    }
  }

  lemma OneText(w: string, u: Letter)
    ensures Text([Part(w, None, u)], false) == (if IsTime(u) then "T" else "") + w + [CharOf(u)]
    ensures Value([Part(w, None, u)]) == Amount(w, None, u)
  {
    hide CharOf, Amount;
    var ps := [Part(w, None, u)];
    assert ps[1..] == [];
    var t := if IsTime(u) then "T" else "";
    NoFraction(w);
    Empty(Start);
    assert Text([], IsTime(u)) == "";
    assert w + [CharOf(u)] + "" == w + [CharOf(u)] && t + (w + [CharOf(u)]) == t + w + [CharOf(u)];
  }

  /** One letter alone. */
  lemma OnePart(n: nat, u: Letter)
    ensures Parsed("P" + ((if IsTime(u) then "T" else "") + Show(n) + [CharOf(u)])) == n * Millis(u)
  {
    WholePart(n, None, u);
    hide Show, Canonical, Parsed, Text, Value, PartOk, Amount, CharOf, Millis;
    var ps := [Part(Show(n), None, u)];
    CanonicalExactly(ps);
    OneText(Show(n), u);
    TextIsRead("P" + Text(ps, false), ps);
  }

  /** What each letter is worth. */
  lemma LettersAreWorth(n: nat)
    ensures Parsed("P" + Show(n) + "Y") == n * 31_536_000_000 && Parsed("P" + Show(n) + "M") == n * 2_592_000_000
    ensures Parsed("P" + Show(n) + "W") == n * 604_800_000 && Parsed("P" + Show(n) + "D") == n * 86_400_000
    ensures Parsed("PT" + Show(n) + "H") == n * 3_600_000 && Parsed("PT" + Show(n) + "M") == n * 60_000
    ensures Parsed("PT" + Show(n) + "S") == n * 1000
  {
    hide Parsed, Show;
    var text := Show(n);
    assert "" + text == text;
    assert forall t: string :: "P" + (text + t) == "P" + text + t && "P" + ("T" + text + t) == "PT" + text + t;
    OnePart(n, Y);
    OnePart(n, Mo);
    OnePart(n, W);
    OnePart(n, D);
    OnePart(n, H);
    OnePart(n, Mi);
    OnePart(n, S);
  }
}
