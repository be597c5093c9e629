/** The number grammar of RFC 7159, section 6, and the automaton the scanner of
  dev/svr/3rd/json.hpp runs on it. */
module JsonNumber {
  import opened Numerals

  predicate AllDigits(s: string) {
    forall i :: 0 <= i < |s| ==> IsDigit(s[i])
  }

  // ---- the grammar: [ minus ] int [ frac ] [ exp ] -------------------------

  predicate IsMinus(s: string) { s == "" || s == "-" }

  predicate IsInt(s: string) {
    s == "0" || (|s| > 0 && '1' <= s[0] <= '9' && AllDigits(s))
  }

  predicate IsFrac(s: string) {
    s == "" || (|s| > 1 && s[0] == '.' && AllDigits(s[1..]))
  }

  predicate IsExp(s: string) {
    s == "" || (|s| > 1 && (s[0] == 'e' || s[0] == 'E') && IsExpBody(s[1..]))
  }

  predicate IsExpBody(s: string) {
    |s| > 0 && (AllDigits(s) || ((s[0] == '+' || s[0] == '-') && |s| > 1 && AllDigits(s[1..])))
  }

  predicate Splits(s: string, a: nat, b: nat, c: nat) {
    a <= b <= c <= |s| && IsMinus(s[..a]) && IsInt(s[a..b]) && IsFrac(s[b..c]) && IsExp(s[c..])
  }

  ghost predicate IsNumber(s: string) {
    exists a: nat, b: nat, c: nat :: Splits(s, a, b, c)
  }

  // ---- the automaton -------------------------------------------------------

  datatype State = Start | Minus | Zero | Digits | Dot | Frac | E | Sign | Exp | Dead

  predicate Accepting(q: State) {
    q.Zero? || q.Digits? || q.Frac? || q.Exp?
  }

  function Delta(q: State, c: char): State {
    match q
    case Start => if c == '-' then Minus else if c == '0' then Zero else if IsDigit(c) then Digits else Dead
    case Minus => if c == '0' then Zero else if IsDigit(c) then Digits else Dead
    case Zero => if c == '.' then Dot else if c == 'e' || c == 'E' then E else Dead
    case Digits => if IsDigit(c) then Digits else if c == '.' then Dot else if c == 'e' || c == 'E' then E else Dead
    case Dot => if IsDigit(c) then Frac else Dead
    case Frac => if IsDigit(c) then Frac else if c == 'e' || c == 'E' then E else Dead
    case E => if c == '+' || c == '-' then Sign else if IsDigit(c) then Exp else Dead
    case Sign => if IsDigit(c) then Exp else Dead
    case Exp => if IsDigit(c) then Exp else Dead
    case Dead => Dead
  }

  function Run(q: State, s: string): State {
    if s == "" then q else Delta(Run(q, s[..|s| - 1]), s[|s| - 1])
  }

  lemma {:induction false} RunConcat(q: State, a: string, b: string)
    ensures Run(q, a + b) == Run(Run(q, a), b)
  {
    if b == "" {
      assert a + b == a;
    } else {
      assert (a + b)[..|a + b| - 1] == a + b[..|b| - 1];
      RunConcat(q, a, b[..|b| - 1]);
    }
  }

  lemma {:induction false} RunDead(s: string)
    ensures Run(Dead, s) == Dead
  {
    if s != "" { RunDead(s[..|s| - 1]); }
  }

  /** States that loop on digits. */
  lemma {:induction false} RunDigits(q: State, s: string)
    requires AllDigits(s) && (q.Digits? || q.Frac? || q.Exp?)
    ensures Run(q, s) == q
  {
    if s != "" { RunDigits(q, s[..|s| - 1]); }
  }

  /** One character, then digits. */
  lemma RunHead(q: State, s: string)
    requires s != ""
    ensures Run(q, s) == Run(Delta(q, s[0]), s[1..])
  {
    assert s == [s[0]] + s[1..];
    assert [s[0]][..0] == "";
    assert Run(q, [s[0]]) == Delta(Run(q, ""), s[0]);
    RunConcat(q, [s[0]], s[1..]);
  }

  lemma RunInt(q: State, s: string)
    requires (q.Start? || q.Minus?) && IsInt(s)
    ensures Run(q, s) == (if s == "0" then Zero else Digits)
  {
    RunHead(q, s);
    if s != "0" { RunDigits(Digits, s[1..]); }
  }

  lemma RunFrac(q: State, s: string)
    requires (q.Zero? || q.Digits?) && IsFrac(s)
    ensures Run(q, s) == (if s == "" then q else Frac)
  {
    if s != "" {
      RunHead(q, s);
      RunHead(Dot, s[1..]);
      RunDigits(Frac, s[1..][1..]);
    }
  }

  lemma RunExp(q: State, s: string)
    requires (q.Zero? || q.Digits? || q.Frac?) && IsExp(s)
    ensures Run(q, s) == (if s == "" then q else Exp)
  {
    if s != "" {
      RunHead(q, s);
      var body := s[1..];
      RunHead(E, body);
      if AllDigits(body) {
        RunDigits(Exp, body[1..]);
      } else {
        RunHead(Sign, body[1..]);
        RunDigits(Exp, body[1..][1..]);
      }
    }
  }

  /** Every number is accepted. */
  lemma NumberAccepted(s: string, a: nat, b: nat, c: nat)
    requires Splits(s, a, b, c)
    ensures Accepting(Run(Start, s))
  {
    hide Run, Delta, IsInt, IsFrac, IsExp;
    var m, i, f, e := s[..a], s[a..b], s[b..c], s[c..];
    assert s == ((m + i) + f) + e;
    RunConcat(Start, m + i + f, e);
    RunConcat(Start, m + i, f);
    RunConcat(Start, m, i);
    RunMinus(m);
    var q := Run(Start, m);
    RunInt(q, i);
    RunFrac(Run(q, i), f);
    RunExp(Run(Run(q, i), f), e);
  }

  lemma RunMinus(m: string)
    requires IsMinus(m)
    ensures Run(Start, m) == (if m == "" then Start else Minus)
  {
    if m == "-" { assert m[..0] == ""; assert Run(Start, m[..0]) == Start; }
  }

  /** What has been read when the automaton is in state q. */
  ghost predicate Shape(q: State, s: string) {
    match q
    case Start => s == ""
    case Minus => s == "-"
    case Zero => IsMinus(s[..Lead(s)]) && s[Lead(s)..] == "0"
    case Digits => IsMinus(s[..Lead(s)]) && IsInt(s[Lead(s)..]) && s[Lead(s)..] != "0"
    case Dot => exists b: nat :: Integral(s, b) && s[b..] == "."
    case Frac => exists b: nat :: Integral(s, b) && IsFrac(s[b..]) && s[b..] != ""
    case E => exists b: nat, c: nat :: Fractional(s, b, c) && ExpPart(q, s[c..])
    case Sign => exists b: nat, c: nat :: Fractional(s, b, c) && ExpPart(q, s[c..])
    case Exp => exists b: nat, c: nat :: Fractional(s, b, c) && ExpPart(q, s[c..])
    case Dead => true
  }

  /** The length of the optional minus. */
  function Lead(s: string): (a: nat)
    ensures a <= |s|
  {
    if |s| > 0 && s[0] == '-' then 1 else 0
  }

  predicate Integral(s: string, b: nat) {
    Lead(s) <= b <= |s| && IsMinus(s[..Lead(s)]) && IsInt(s[Lead(s)..b])
  }

  predicate Fractional(s: string, b: nat, c: nat) {
    Integral(s, b) && b <= c <= |s| && IsFrac(s[b..c])
  }

  /** Reading one more character keeps the invariant. */
  lemma ShapeStep(q: State, p: string, c: char)
    requires Shape(q, p)
    ensures Shape(Delta(q, c), p + [c])
  {
    if q.Start? || q.Minus? || q.Zero? || q.Digits? {
      IntegralStep(q, p, c);
    } else if q.Dot? || q.Frac? {
      FractionStep(q, p, c);
    } else if !q.Dead? {
      ExponentStep(q, p, c);
    }
  }

  lemma IntegralStep(q: State, p: string, c: char)
    requires Shape(q, p) && (q.Start? || q.Minus? || q.Zero? || q.Digits?)
    ensures Shape(Delta(q, c), p + [c])
  {
    var s := p + [c];
    if q.Start? {
      assert s == [c];
    } else if q.Minus? {
      assert s[..1] == "-" && s[1..] == [c];
    } else {
      var d := p[Lead(p)..];
      assert d == p[Lead(p)..|p|] && |d| > 0 && |p| > 0;
      assert s[Lead(s)..] == d + [c] && s[..Lead(s)] == p[..Lead(p)];
      IntegralExtends(p, c, |p|);
      assert s[|p|..] == [c];
    }
  }

  lemma TailExtends(x: string, c: char)
    requires x != ""
    ensures (x + [c])[1..] == x[1..] + [c]
  {
  }

  lemma FractionStep(q: State, p: string, c: char)
    requires Shape(q, p) && (q.Dot? || q.Frac?)
    ensures Shape(Delta(q, c), p + [c])
  {
    var s := p + [c];
    var b: nat :| Integral(p, b) && p[b..] != "" && (if q.Dot? then p[b..] == "." else IsFrac(p[b..]));
    IntegralExtends(p, c, b);
    hide Integral;
    assert s[b..] == p[b..] + [c];
    TailExtends(p[b..], c);
    if q.Frac? {
      assert s[b..|p|] == p[b..] && s[|p|..] == [c];
      assert Fractional(s, b, |p|) by { FractionEnds(s, b, |p|); }
    }
  }

  lemma FractionEnds(s: string, b: nat, c: nat)
    requires Integral(s, b) && b <= c <= |s| && IsFrac(s[b..c])
    ensures Fractional(s, b, c)
  {
  }

  lemma ExponentStep(q: State, p: string, c: char)
    requires Shape(q, p) && (q.E? || q.Sign? || q.Exp?)
    ensures Shape(Delta(q, c), p + [c])
  {
    var s := p + [c];
    var b: nat, e: nat :| Fractional(p, b, e) && ExpPart(q, p[e..]);
    FractionalExtends(p, c, b, e);
    hide Fractional, Integral, ExpPart, Delta;
    assert s[e..] == p[e..] + [c];
    ExpPartStep(q, p[e..], c);
  }

  /** The exponent part alone, one character further. */
  lemma ExpPartStep(q: State, x: string, c: char)
    requires (q.E? || q.Sign? || q.Exp?) && ExpPart(q, x)
    ensures var r := Delta(q, c);
            r.Dead? || ((r.E? || r.Sign? || r.Exp?) && ExpPart(r, x + [c]))
  {
    var y := x + [c];
    assert y[1..] == x[1..] + [c];
    if |x| >= 2 {
      assert y[1..][1..] == x[1..][1..] + [c];
    }
  }

  /** What the exponent part looks like in the three exponent states. */
  predicate ExpPart(q: State, x: string) {
    match q
    case E => x == "e" || x == "E"
    case Sign => |x| == 2 && (x[0] == 'e' || x[0] == 'E') && (x[1] == '+' || x[1] == '-')
    case Exp => IsExp(x) && x != ""
    case _ => false
  }

  lemma IntegralExtends(p: string, c: char, b: nat)
    requires b <= |p| && p != "" && Lead(p) <= b && IsMinus(p[..Lead(p)]) && IsInt(p[Lead(p)..b])
    ensures Integral(p + [c], b)
    ensures b == |p| ==> Fractional(p + [c], b, b)
  {
    var s := p + [c];
    assert s[..Lead(s)] == p[..Lead(p)];
    assert s[Lead(s)..b] == p[Lead(p)..b];
    assert s[b..b] == "";
  }

  lemma FractionalExtends(p: string, c: char, b: nat, e: nat)
    requires Fractional(p, b, e) && p != ""
    ensures Fractional(p + [c], b, e)
  {
    IntegralExtends(p, c, b);
    assert (p + [c])[b..e] == p[b..e];
  }

  lemma {:induction false} RunShape(s: string)
    ensures Shape(Run(Start, s), s)
  {
    if s != "" {
      var p, c := s[..|s| - 1], s[|s| - 1];
      RunShape(p);
      ShapeStep(Run(Start, p), p, c);
      assert p + [c] == s;
    }
  }

  /** Only numbers are accepted. */
  lemma AcceptedIsNumber(s: string)
    requires Accepting(Run(Start, s))
    ensures IsNumber(s)
  {
    hide Run, IsInt, IsFrac, IsExp;
    RunShape(s);
    var a, n := Lead(s), |s|;
    assert s[n..n] == "" && s[n..] == "" && s[a..n] == s[a..];
    EmptyParts();
    match Run(Start, s) {
      case Zero =>
        IntZero();
        assert Splits(s, a, n, n);
      case Digits => assert Splits(s, a, n, n);
      case Frac =>
        var b: nat :| Integral(s, b) && IsFrac(s[b..]) && s[b..] != "";
        assert s[b..n] == s[b..];
        assert Splits(s, a, b, n);
      case Exp =>
        var b: nat, c: nat :| Fractional(s, b, c) && IsExp(s[c..]) && s[c..] != "";
        assert Splits(s, a, b, c);
    }
  }

  lemma EmptyParts()
    ensures IsFrac("") && IsExp("")
  {
  }

  lemma IntZero()
    ensures IsInt("0")
  {
  }

  /** The automaton accepts exactly the grammar of section 6. */
  lemma AcceptsExactlyNumbers(s: string)
    ensures Accepting(Run(Start, s)) <==> IsNumber(s)
  {
    hide *;
    if IsNumber(s) {
      var a, b, c := NumberSplit(s);
      NumberAccepted(s, a, b, c);
    }
    if Accepting(Run(Start, s)) {
      AcceptedIsNumber(s);
    }
  }

  lemma NumberSplit(s: string) returns (a: nat, b: nat, c: nat)
    requires IsNumber(s)
    ensures Splits(s, a, b, c)
  {
    a, b, c :| Splits(s, a, b, c);
  }

  /** Numbers with all parts, and with as few as possible. */
  lemma NumberExamples()
    ensures IsNumber("-10.25E+3") && IsNumber("0e-7") && IsNumber("9")
  {
    var s, t, u := "-10.25E+3", "0e-7", "9";
    assert s[..1] == "-" && s[1..3] == "10" && s[3..6] == ".25" && s[6..] == "E+3";
    assert ".25"[1..] == "25" && "E+3"[1..] == "+3" && "+3"[1..] == "3";
    assert Splits(s, 1, 3, 6);
    assert t[..0] == "" && t[0..1] == "0" && t[1..1] == "" && t[1..] == "e-7";
    assert "e-7"[1..] == "-7" && "-7"[1..] == "7";
    assert Splits(t, 0, 1, 1);
    assert u[..0] == "" && u[0..1] == "9" && u[1..1] == "" && u[1..] == "";
    assert Splits(u, 0, 1, 1);
  }

  /** What section 6 leaves out: a plus, a leading zero, a point without digits on both of its sides, an
    exponent without any. */
  lemma NotNumbers()
    ensures !IsNumber("+1") && !IsNumber("01") && !IsNumber(".5") && !IsNumber("1.") && !IsNumber("1e")
  {
    TwoCharacters('+', '1');
    TwoCharacters('0', '1');
    TwoCharacters('.', '5');
    TwoCharacters('1', '.');
    TwoCharacters('1', 'e');
  }

  lemma TwoCharacters(a: char, b: char)
    ensures IsNumber([a, b]) <==> Accepting(Delta(Delta(Start, a), b))
  {
    hide Delta, Accepting, IsNumber;
    AcceptsExactlyNumbers([a, b]);
    assert [a, b][..1] == [a] && [a][..0] == "";
    assert Run(Start, [a]) == Delta(Run(Start, ""), a);
  }
}
