/**
 * The `validEmail` check shared by the login and registration forms: the
 * regular expression `^[^\s@]+@[^\s@]+\.[^\s@]+$`, run as the automaton a
 * regular-expression engine builds for it, and proved equal to the
 * pattern's own reading, "A@B.C with A, B and C non-empty and free of white
 * space and '@'".
 */
module Email {
  import opened Wrappers
  import opened Text

  /** A character the class `[^\s@]` matches. */
  predicate Plain(c: char) {
    !IsJsSpace(c) && c != '@'
  }

  /** Every character of `s` is matched by `[^\s@]`. */
  predicate AllPlain(s: string) {
    forall k :: 0 <= k < |s| ==> Plain(s[k])
  }

  /**
   * `e` splits at an '@' at `at` and a '.' at `dot` into three non-empty
   * runs of `[^\s@]`: the regular expression matches with these positions.
   */
  ghost predicate SplitsAt(e: string, at: int, dot: int) {
    && 0 < at && at + 1 < dot && dot + 1 < |e|
    && e[at] == '@' && e[dot] == '.'
    && AllPlain(e[..at]) && AllPlain(e[at + 1..dot]) && AllPlain(e[dot + 1..])
  }

  /** The language of `^[^\s@]+@[^\s@]+\.[^\s@]+$`. */
  ghost predicate EmailPattern(e: string) {
    exists at, dot :: SplitsAt(e, at, dot)
  }

  /**
   * The automaton's states: before the first character, inside the part
   * before '@', just after '@', inside the domain before a separating '.',
   * just after that '.', and inside the final part (the only accepting state).
   */
  datatype State = Start | Local | AtSign | Domain | Dot | Tail

  function Step(q: State, c: char): Option<State> {
    match q
    case Start => if Plain(c) then Some(Local) else None
    case Local => if Plain(c) then Some(Local) else if c == '@' then Some(AtSign) else None
    case AtSign => if Plain(c) then Some(Domain) else None
    case Domain => if c == '.' then Some(Dot) else if Plain(c) then Some(Domain) else None
    case Dot => if Plain(c) then Some(Tail) else None
    case Tail => if Plain(c) then Some(Tail) else None
  }

  /** The automaton, started in `q`, accepts the rest of the input `s`. */
  function Accepts(q: State, s: string): bool
    decreases |s|
  {
    if s == [] then q == Tail
    else match Step(q, s[0])
      case None => false
      case Some(next) => Accepts(next, s[1..])
  }

  /** `validEmail(e)` */
  function ValidEmail(e: string): (r: bool)
    ensures r ==> e != [] && Plain(e[0])
  {
    Accepts(Start, e)
  }

  /** From the final state, the rest is accepted exactly when it is a run of `[^\s@]`. */
  lemma {:induction false} TailAccepts(s: string)
    ensures Accepts(Tail, s) <==> AllPlain(s)
    decreases |s|
  {
    if s != [] {
      TailAccepts(s[1..]);
      if AllPlain(s) {
        assert Plain(s[0]);
      }
    }
  }

  /** The domain and final parts, `B.C`: all plain, with a '.' neither first nor last. */
  ghost predicate DomainShape(t: string) {
    AllPlain(t) && exists dot :: 0 < dot < |t| - 1 && t[dot] == '.'
  }

  /**
   * Inside the domain (one character of it already read), the rest is
   * accepted exactly when it is plain and holds a '.' that is not its last
   * character: the automaton takes the first such '.' as the separator.
   */
  lemma {:induction false} DomainAccepts(s: string)
    ensures Accepts(Domain, s) <==> AllPlain(s) && exists dot :: 0 <= dot < |s| - 1 && s[dot] == '.'
    decreases |s|
  {
    if s == [] {
    } else if s[0] == '.' {
      TailAccepts(s[1..]);
      if Accepts(Domain, s) {
        assert Plain(s[0]);
        assert s[0] == '.';
      }
      if AllPlain(s) && exists dot :: 0 <= dot < |s| - 1 && s[dot] == '.' {
        assert s[1..] != [] && Plain(s[1]);
      }
    } else if Plain(s[0]) {
      DomainAccepts(s[1..]);
      if Accepts(Domain, s) {
        var dot :| 0 <= dot < |s| - 2 && s[1..][dot] == '.';
        assert s[dot + 1] == '.';
      }
      if AllPlain(s) && exists dot :: 0 <= dot < |s| - 1 && s[dot] == '.' {
        var dot :| 0 <= dot < |s| - 1 && s[dot] == '.';
        assert dot > 0;
        assert s[1..][dot - 1] == '.';
      }
    } else {
      assert !AllPlain(s);
    }
  }

  /** Just after the '@', the rest is accepted exactly when it has the domain's shape. */
  lemma AtSignAccepts(t: string)
    ensures Accepts(AtSign, t) <==> DomainShape(t)
  {
    if t != [] {
      DomainAccepts(t[1..]);
      if Accepts(AtSign, t) {
        var dot :| 0 <= dot < |t| - 2 && t[1..][dot] == '.';
        assert t[dot + 1] == '.';
      }
      if DomainShape(t) {
        var dot :| 0 < dot < |t| - 1 && t[dot] == '.';
        assert Plain(t[0]);
        assert t[1..][dot - 1] == '.';
      }
    }
  }

  /**
   * Inside the local part, the rest is accepted exactly when it is a plain
   * run, an '@', and something of the domain's shape.
   */
  lemma {:induction false} LocalAccepts(s: string)
    ensures Accepts(Local, s) <==> exists at :: LocalShape(s, at)
    decreases |s|
  {
    if s == [] {
    } else if s[0] == '@' {
      AtSignAccepts(s[1..]);
      if Accepts(Local, s) {
        assert s[..0] == [];
        assert LocalShape(s, 0);
      }
    } else if Plain(s[0]) {
      LocalAccepts(s[1..]);
      LocalShapeShifts(s);
    }
  }

  /** The local-part shape of `s`, split at an '@' at `at`. */
  ghost predicate LocalShape(s: string, at: int) {
    0 <= at < |s| && s[at] == '@' && AllPlain(s[..at]) && DomainShape(s[at + 1..])
  }

  /** After a plain first character, the local-part shape of `s` is that of its tail, one position on. */
  lemma LocalShapeShifts(s: string)
    requires s != [] && Plain(s[0])
    ensures (exists at :: LocalShape(s, at)) <==> (exists at :: LocalShape(s[1..], at))
  {
    if exists at :: LocalShape(s[1..], at) {
      var at :| LocalShape(s[1..], at);
      assert s[..at + 1] == [s[0]] + s[1..][..at];
      assert s[at + 2..] == s[1..][at + 1..];
      assert LocalShape(s, at + 1);
    }
    if exists at :: LocalShape(s, at) {
      var at :| LocalShape(s, at);
      assert s[1..][..at - 1] == s[1..at];
      assert s[1..][at..] == s[at + 1..];
      assert LocalShape(s[1..], at - 1);
    }
  }

  /** Splitting the domain shape at its '.' gives the two last runs of the pattern. */
  lemma DomainShapeSplits(e: string, at: int)
    requires 0 < at < |e| && e[at] == '@' && AllPlain(e[..at])
    ensures DomainShape(e[at + 1..]) <==> exists dot :: SplitsAt(e, at, dot)
  {
    var t := e[at + 1..];
    if DomainShape(t) {
      var d :| 0 < d < |t| - 1 && t[d] == '.';
      var dot := at + 1 + d;
      assert e[at + 1..dot] == t[..d];
      assert e[dot + 1..] == t[d + 1..];
      assert SplitsAt(e, at, dot);
    }
    if exists dot :: SplitsAt(e, at, dot) {
      var dot :| SplitsAt(e, at, dot);
      assert t[dot - at - 1] == '.';
      forall k | 0 <= k < |t|
        ensures Plain(t[k])
      {
        if k < dot - at - 1 {
          assert t[k] == e[at + 1..dot][k];
        } else if k > dot - at - 1 {
          assert t[k] == e[dot + 1..][k - (dot - at)];
        }
      }
    }
  }

  /** Every string the automaton accepts matches the regular expression. */
  lemma AcceptedMatchesPattern(e: string)
    requires ValidEmail(e)
    ensures EmailPattern(e)
  {
    LocalAccepts(e[1..]);
    var a :| LocalShape(e[1..], a);
    var at := a + 1;
    assert e[..at] == [e[0]] + e[1..][..a];
    assert e[at + 1..] == e[1..][a + 1..];
    DomainShapeSplits(e, at);
  }

  /** Every string the regular expression matches is accepted by the automaton. */
  lemma PatternIsAccepted(e: string)
    requires EmailPattern(e)
    ensures ValidEmail(e)
  {
    var at, dot :| SplitsAt(e, at, dot);
    DomainShapeSplits(e, at);
    assert Plain(e[..at][0]);
    assert e[1..][at - 1] == '@';
    assert e[1..][..at - 1] == e[1..at];
    assert e[1..][at..] == e[at + 1..];
    assert LocalShape(e[1..], at - 1);
    LocalAccepts(e[1..]);
  }

  /** The automaton accepts exactly the strings the regular expression matches. */
  lemma ValidEmailIsPattern(e: string)
    ensures ValidEmail(e) <==> EmailPattern(e)
  {
    if ValidEmail(e) {
      AcceptedMatchesPattern(e);
    }
    if EmailPattern(e) {
      PatternIsAccepted(e);
    }
  }

  /** Apart from the '@' and the '.' it splits at, every character of a match is plain. */
  lemma SplitIsPlainElsewhere(e: string, at: int, dot: int)
    requires SplitsAt(e, at, dot)
    ensures forall k :: 0 <= k < |e| && k != at && k != dot ==> Plain(e[k])
  {
    forall k | 0 <= k < |e| && k != at && k != dot
      ensures Plain(e[k])
    {
      if k < at {
        assert e[k] == e[..at][k];
      } else if k < dot {
        assert e[k] == e[at + 1..dot][k - at - 1];
      } else {
        assert e[k] == e[dot + 1..][k - dot - 1];
      }
    }
  }

  /** An accepted address holds no white space, so trimming it changes nothing; it has at least five characters. */
  lemma ValidEmailIsTrimmed(e: string)
    requires ValidEmail(e)
    ensures NoSpace(e) && Trim(e) == e
    ensures |e| >= 5
  {
    AcceptedMatchesPattern(e);
    var at, dot :| SplitsAt(e, at, dot);
    SplitIsPlainElsewhere(e, at, dot);
    TrimNoSpace(e);
  }

  /** An accepted address is not blank: its first character is not white space. */
  lemma ValidEmailNotBlank(e: string)
    requires ValidEmail(e)
    ensures !AllSpace(e)
  {
    assert Plain(e[0]);
  }

  /** An accepted address has exactly one '@', with something before it. */
  lemma ValidEmailOneAt(e: string)
    requires ValidEmail(e)
    ensures exists at :: 0 < at < |e| && e[at] == '@' && forall k :: 0 <= k < |e| && e[k] == '@' ==> k == at
  {
    AcceptedMatchesPattern(e);
    var at, dot :| SplitsAt(e, at, dot);
    SplitIsPlainElsewhere(e, at, dot);
  }

  /** Lower-casing a letter never changes how the automaton moves. */
  lemma StepIgnoresCase(q: State, c: char)
    ensures Step(q, LowerChar(c)) == Step(q, c)
  {
  }

  /** Lower-casing an address never changes whether it is accepted. */
  lemma {:induction false} AcceptsIgnoresCase(q: State, s: string)
    ensures Accepts(q, Lower(s)) == Accepts(q, s)
    decreases |s|
  {
    if s != [] {
      StepIgnoresCase(q, s[0]);
      assert Lower(s)[1..] == Lower(s[1..]);
      match Step(q, s[0])
      case None =>
      case Some(next) => AcceptsIgnoresCase(next, s[1..]);
    }
  }

  /** Lower-casing an address never changes whether it is valid. */
  lemma ValidEmailIgnoresCase(e: string)
    ensures ValidEmail(Lower(e)) == ValidEmail(e)
  {
    AcceptsIgnoresCase(Start, e);
  }

  /** Normalising an accepted address (trim, then lower-case) only lower-cases it, and keeps it accepted. */
  lemma NormalizeValidEmail(e: string)
    requires ValidEmail(e)
    ensures Lower(Trim(e)) == Lower(e) && ValidEmail(Lower(e))
  {
    ValidEmailIsTrimmed(e);
    ValidEmailIgnoresCase(e);
  }
}
