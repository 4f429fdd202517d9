/** The lp_solve error taxonomy and the classifier of lp_solve's textual output
    (ecowcdb/util/errors.py). */
module LPErrors {
  import opened Wrappers

  /** The seven kinds of lp_solve failure. */
  datatype LPErrorType =
    | AccuracyError
    | TimeoutError
    | InfeasibleProblemError
    | UnboundedProblemError
    | LPSolveFailure
    | SuboptimalSolutionWarning
    | UnhandledLPError

  /** The enum member's integer value. */
  function Value(t: LPErrorType): nat {
    match t
    case AccuracyError => 0
    case TimeoutError => 1
    case InfeasibleProblemError => 2
    case UnboundedProblemError => 3
    case LPSolveFailure => 4
    case SuboptimalSolutionWarning => 5
    case UnhandledLPError => 6
  }

  /** `LPErrorType(v)`: the member with value `v`, if any. */
  function FromValue(v: nat): (r: Option<LPErrorType>)
    ensures r.Some? <==> v < 7
    ensures r.Some? ==> Value(r.value) == v
  {
    if v == 0 then Some(AccuracyError)
    else if v == 1 then Some(TimeoutError)
    else if v == 2 then Some(InfeasibleProblemError)
    else if v == 3 then Some(UnboundedProblemError)
    else if v == 4 then Some(LPSolveFailure)
    else if v == 5 then Some(SuboptimalSolutionWarning)
    else if v == 6 then Some(UnhandledLPError)
    else None
  }

  /** The values are exactly 0..6, one per member. */
  lemma ValueBijection(t: LPErrorType, u: LPErrorType)
    ensures Value(t) < 7
    ensures FromValue(Value(t)) == Some(t)
    ensures Value(t) == Value(u) ==> t == u
  {
  }

  /** The enum member's name. */
  function Name(t: LPErrorType): string {
    match t
    case AccuracyError => "AccuracyError"
    case TimeoutError => "TimeoutError"
    case InfeasibleProblemError => "InfeasibleProblemError"
    case UnboundedProblemError => "UnboundedProblemError"
    case LPSolveFailure => "LPSolveFailure"
    case SuboptimalSolutionWarning => "SuboptimalSolutionWarning"
    case UnhandledLPError => "UnhandledLPError"
  }

  /** The exception raised for an lp_solve failure. */
  datatype LPError = LPError(errorType: LPErrorType) {

    /** The type given to the constructor. */
    function ErrorType(): (r: LPErrorType)
      ensures LPError(r) == this
    {
      errorType
    }

    /** `str(error)`. */
    function ToString(): (r: string)
      ensures |r| > |"LPError: "| && r[..|"LPError: "|] == "LPError: "
    {
      "LPError: " + Name(errorType)
    }
  }

  /** Distinct error types print differently, and the type can be read back
      from the text. */
  lemma ToStringInjective(a: LPError, b: LPError)
    ensures a.ToString() == b.ToString() <==> a == b
  {
    if a.ToString() == b.ToString() {
      var p := |"LPError: "|;
      assert a.ToString()[p..] == Name(a.errorType);
      assert b.ToString()[p..] == Name(b.errorType);
    }
  }

  /** Python's `s.split(sep)` for a one-character separator. */
  function Split(s: string, sep: char): (r: seq<string>)
    ensures |r| >= 1
    ensures sep in s ==> |r| >= 2
    ensures forall i :: 0 <= i < |r| ==> sep !in r[i]
  {
    if s == [] then [""]
    else
      var rest := Split(s[1..], sep);
      if s[0] == sep then [""] + rest
      else [[s[0]] + rest[0]] + rest[1..]
  }

  /** `sep.join(parts)`. */
  function Join(parts: seq<string>, sep: char): string
    requires |parts| >= 1
  {
    if |parts| == 1 then parts[0] else parts[0] + [sep] + Join(parts[1..], sep)
  }

  /** Number of occurrences of `c` in `s`. */
  function Count(s: string, c: char): nat {
    if s == [] then 0 else (if s[0] == c then 1 else 0) + Count(s[1..], c)
  }

  /** Splitting loses nothing: joining the pieces gives the text back, and
      there is one more piece than separators. */
  lemma {:induction false} SplitJoin(s: string, sep: char)
    ensures Join(Split(s, sep), sep) == s
    ensures |Split(s, sep)| == Count(s, sep) + 1
  {
    if s != [] {
      SplitJoin(s[1..], sep);
      var rest := Split(s[1..], sep);
      if s[0] == sep {
        assert Split(s, sep)[1..] == rest;
        assert s == [sep] + s[1..];
      } else {
        var r := Split(s, sep);
        assert r[1..] == rest[1..];
        if |rest| == 1 {
          assert s == [s[0]] + rest[0];
        } else {
          assert rest == [rest[0]] + rest[1..];
          assert s == [s[0]] + (rest[0] + [sep] + Join(rest[1..], sep));
        }
      }
    }
  }

  lemma {:induction false} CountPositive(s: string, c: char)
    requires c in s
    ensures Count(s, c) >= 1
  {
    if s[0] != c {
      CountPositive(s[1..], c);
    }
  }

  /** Which line of the output a rule inspects: `s_split[0]` or `s_split[-2]`. */
  datatype Position = First | SecondToLast

  /** "If the line at `pos` equals `text`, raise `kind`." */
  datatype Rule = Rule(pos: Position, text: string, kind: LPErrorType)

  /** The known lp_solve failures, in the order they are checked. */
  const Rules: seq<Rule> := [
    Rule(SecondToLast, "Accuracy error", AccuracyError),
    Rule(SecondToLast, "Timeout", TimeoutError),
    Rule(First, "This problem is infeasible", InfeasibleProblemError),
    Rule(First, "This problem is unbounded", UnboundedProblemError),
    Rule(SecondToLast, "lp_solve failed", LPSolveFailure),
    Rule(First, "Suboptimal solution", SuboptimalSolutionWarning)
  ]

  /** The prefix a correct lp_solve answer has on its second line. */
  const ObjectivePrefix: string := "Value of objective function:"

  predicate Matches(rule: Rule, lines: seq<string>)
    requires |lines| >= 2
  {
    match rule.pos
    case First => lines[0] == rule.text
    case SecondToLast => lines[|lines| - 2] == rule.text
  }

  /** The kind of the first rule that matches, if any. */
  function FirstMatch(rules: seq<Rule>, lines: seq<string>): (r: Option<LPErrorType>)
    requires |lines| >= 2
    ensures r.None? <==> forall i :: 0 <= i < |rules| ==> !Matches(rules[i], lines)
  {
    if rules == [] then None
    else if Matches(rules[0], lines) then Some(rules[0].kind)
    else
      assert forall i :: 1 <= i < |rules| ==> rules[i] == rules[1..][i - 1];
      FirstMatch(rules[1..], lines)
  }

  /** A found kind belongs to a matching rule with no earlier matching rule. */
  lemma {:induction false} FirstMatchWitness(rules: seq<Rule>, lines: seq<string>)
    requires |lines| >= 2
    requires FirstMatch(rules, lines).Some?
    ensures exists i :: 0 <= i < |rules| && Matches(rules[i], lines) && rules[i].kind == FirstMatch(rules, lines).value
                        && forall j :: 0 <= j < i ==> !Matches(rules[j], lines)
  {
    if !Matches(rules[0], lines) {
      FirstMatchWitness(rules[1..], lines);
      var i :| 0 <= i < |rules[1..]| && Matches(rules[1..][i], lines) && rules[1..][i].kind == FirstMatch(rules, lines).value
               && forall j :: 0 <= j < i ==> !Matches(rules[1..][j], lines);
      assert Matches(rules[i + 1], lines);
      assert forall j :: 1 <= j < i + 1 ==> rules[j] == rules[1..][j - 1];
    }
  }

  /** The rule table, unrolled. */
  lemma FirstMatchRules(lines: seq<string>)
    requires |lines| >= 2
    ensures var first := lines[0];
            var last := lines[|lines| - 2];
            FirstMatch(Rules, lines) ==
              if last == "Accuracy error" then Some(AccuracyError)
              else if last == "Timeout" then Some(TimeoutError)
              else if first == "This problem is infeasible" then Some(InfeasibleProblemError)
              else if first == "This problem is unbounded" then Some(UnboundedProblemError)
              else if last == "lp_solve failed" then Some(LPSolveFailure)
              else if first == "Suboptimal solution" then Some(SuboptimalSolutionWarning)
              else None
  {
    var r := Rules;
    assert FirstMatch(r, lines) == if Matches(r[0], lines) then Some(r[0].kind) else FirstMatch(r[1..], lines);
    r := r[1..];
    assert FirstMatch(r, lines) == if Matches(r[0], lines) then Some(r[0].kind) else FirstMatch(r[1..], lines);
    r := r[1..];
    assert FirstMatch(r, lines) == if Matches(r[0], lines) then Some(r[0].kind) else FirstMatch(r[1..], lines);
    r := r[1..];
    assert FirstMatch(r, lines) == if Matches(r[0], lines) then Some(r[0].kind) else FirstMatch(r[1..], lines);
    r := r[1..];
    assert FirstMatch(r, lines) == if Matches(r[0], lines) then Some(r[0].kind) else FirstMatch(r[1..], lines);
    r := r[1..];
    assert FirstMatch(r, lines) == if Matches(r[0], lines) then Some(r[0].kind) else FirstMatch(r[1..], lines);
    assert r[1..] == [];
  }

  /** `check_LP_error(s)`: `Pass` when it returns normally, `Fail(kind)` when
      it raises `LPError(kind)`.  The output must hold a line break, or the
      source's `s_split[-2]` raises `IndexError`. */
  function CheckLPError(s: string): (r: Outcome<LPErrorType>)
    requires '\n' in s
    ensures var lines := Split(s, '\n');
            |lines| >= 2 &&
            r == match FirstMatch(Rules, lines)
                 case Some(k) => Fail(k)
                 case None => if ObjectivePrefix <= lines[1] then Pass else Fail(UnhandledLPError)
  {
    FirstMatchRules(Split(s, '\n'));
    var lines := Split(s, '\n');
    var first := lines[0];
    var last := lines[|lines| - 2];
    if last == "Accuracy error" then Fail(AccuracyError)
    else if last == "Timeout" then Fail(TimeoutError)
    else if first == "This problem is infeasible" then Fail(InfeasibleProblemError)
    else if first == "This problem is unbounded" then Fail(UnboundedProblemError)
    else if last == "lp_solve failed" then Fail(LPSolveFailure)
    else if first == "Suboptimal solution" then Fail(SuboptimalSolutionWarning)
    else if ObjectivePrefix <= lines[1] then Pass
    else Fail(UnhandledLPError)
  }

  /** The classifier returns normally exactly when no failure line is present
      and the second line reports the objective value. */
  lemma CheckPassIff(s: string)
    requires '\n' in s
    ensures var lines := Split(s, '\n');
            CheckLPError(s).Pass? <==>
              (forall i :: 0 <= i < |Rules| ==> !Matches(Rules[i], lines)) && ObjectivePrefix <= lines[1]
  {
  }

  /** An accuracy failure on the second-to-last line wins over everything,
      including an "infeasible" first line. */
  lemma AccuracyFirst(s: string)
    requires '\n' in s
    requires var lines := Split(s, '\n'); lines[|lines| - 2] == "Accuracy error"
    ensures CheckLPError(s) == Fail(AccuracyError)
  {
  }
}
