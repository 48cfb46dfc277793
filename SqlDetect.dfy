/** `detectSQLInjection` of js/common.js: a first-match search over a fixed,
    ordered table of case-insensitive, unanchored regular expressions. Each
    expression has the shape `p1.*?p2.*?…` with literal pieces `p1, p2, …`
    (the last expression's final piece is an alternation of literals), so it
    matches exactly when the pieces occur in order, without overlapping, with
    no line terminator between them, ignoring ASCII case. The `i` flag
    without the `u` flag never maps a character outside ASCII to one inside
    it, and all the pieces are ASCII, so comparing ASCII-upper-cased
    characters is exact. Regular expressions in general are not modelled. */
module SqlDetect {
  import opened Wrappers

  /** The characters `.` does not match. */
  predicate IsLineTerminator(c: char) {
    c == '\n' || c == '\r' || c == '\U{2028}' || c == '\U{2029}'
  }

  /** ASCII upper case. */
  function Fold(c: char): char {
    if 'a' <= c <= 'z' then (c as int - 32) as char else c
  }

  lemma FoldTerminator(c: char)
    ensures IsLineTerminator(Fold(c)) <==> IsLineTerminator(c)
  {
  }

  /** `lit` matches at the front of `s`, ignoring ASCII case. */
  predicate LiteralAt(s: string, lit: string) {
    |lit| <= |s| && forall k :: 0 <= k < |lit| ==> Fold(s[k]) == Fold(lit[k])
  }

  /** One piece of an expression: the literals it may match (one, or the
      branches of an alternation). */
  type Piece = seq<string>

  /** The pieces match starting at the front of `s`. */
  predicate Lead(s: string, ps: seq<Piece>)
    decreases |ps|, |s|, 1, 0
  {
    ps == [] || AltLead(s, ps[0], ps[1..])
  }

  /** One of `alts` matches at the front of `s`, and `rest` follows it. */
  predicate AltLead(s: string, alts: Piece, rest: seq<Piece>)
    decreases |rest| + 1, |s|, 0, |alts|
  {
    alts != [] &&
    ((LiteralAt(s, alts[0]) && Gap(s[|alts[0]|..], rest)) || AltLead(s, alts[1..], rest))
  }

  /** `.*?` then the pieces: after some characters other than line
      terminators, the pieces match. */
  predicate Gap(s: string, ps: seq<Piece>)
    decreases |ps|, |s|, 2, 0
  {
    ps == [] || Lead(s, ps) || (s != [] && !IsLineTerminator(s[0]) && Gap(s[1..], ps))
  }

  /** `pattern.test(input)`: the pieces match starting somewhere in `s`. */
  predicate Test(s: string, ps: seq<Piece>)
    decreases |s|
  {
    Lead(s, ps) || (s != [] && Test(s[1..], ps))
  }

  /** A match found at any position is found by the search. */
  lemma {:induction false} TestAt(s: string, ps: seq<Piece>, i: nat)
    requires i <= |s| && Lead(s[i..], ps)
    ensures Test(s, ps)
    decreases i
  {
    if i > 0 {
      assert s[1..][i - 1..] == s[i..];
      TestAt(s[1..], ps, i - 1);
    }
  }

  /** The search succeeds only where a match starts. */
  lemma {:induction false} TestWitness(s: string, ps: seq<Piece>) returns (i: nat)
    requires Test(s, ps)
    ensures i <= |s| && Lead(s[i..], ps)
    decreases |s|
  {
    if Lead(s, ps) {
      i := 0;
    } else {
      var j := TestWitness(s[1..], ps);
      assert s[1..][j..] == s[j + 1..];
      i := j + 1;
    }
  }

  /** `test` succeeds exactly when a match starts at some position of the
      input (the end of the input included, where only an empty pattern
      matches). */
  lemma TestSomewhere(s: string, ps: seq<Piece>)
    ensures Test(s, ps) <==> exists i :: 0 <= i <= |s| && Lead(s[i..], ps)
  {
    if Test(s, ps) {
      var i := TestWitness(s, ps);
    }
    if exists i :: 0 <= i <= |s| && Lead(s[i..], ps) {
      var i :| 0 <= i <= |s| && Lead(s[i..], ps);
      TestAt(s, ps, i);
    }
  }

  /** One row of the table. */
  datatype Rule = Rule(pieces: seq<Piece>, description: string)

  /** The table, in the order the detector tries it. */
  const Rules: seq<Rule> := [
    Rule([["'"], ["OR"], ["'"], ["'"], ["'"]], "OR-based authentication bypass"),
    Rule([["'"], ["OR"], ["1"], ["="], ["1"]], "OR 1=1 always-true condition"),
    Rule([["'"], ["--"]], "SQL comment injection"),
    Rule([["admin'"], ["--"]], "Admin bypass with comment"),
    Rule([["UNION"], ["SELECT"]], "UNION-based injection"),
    Rule([["DROP"], ["TABLE"]], "Destructive DROP TABLE injection"),
    Rule([[";"], ["DROP", "DELETE", "UPDATE", "INSERT"]], "Stacked query injection")
  ]

  /** The index of the first rule that matches. */
  function FirstMatch(input: string, rules: seq<Rule>): (r: Option<nat>)
    ensures r.Some? ==> r.value < |rules| && Test(input, rules[r.value].pieces)
    ensures r.Some? ==> forall j :: 0 <= j < r.value ==> !Test(input, rules[j].pieces)
    ensures r.None? ==> forall j :: 0 <= j < |rules| ==> !Test(input, rules[j].pieces)
  {
    if rules == [] then None
    else if Test(input, rules[0].pieces) then Some(0)
    else match FirstMatch(input, rules[1..])
      case None => None
      case Some(i) => Some(i + 1)
  }

  /** The detector's result: `{detected: false}`, or the description and the
      expression of the first rule that matched. */
  datatype Detection = NotDetected | Detected(description: string, pattern: seq<Piece>)

  /** `detectSQLInjection(input)`: detection happens exactly when some rule
      matches, and then reports the first matching rule of the table. */
  function DetectSqlInjection(input: string): (d: Detection)
    ensures d.Detected? <==> exists i :: 0 <= i < |Rules| && Test(input, Rules[i].pieces)
    ensures d.Detected? ==>
      exists i :: (0 <= i < |Rules| && Rules[i] == Rule(d.pattern, d.description)
        && Test(input, Rules[i].pieces) && forall j :: 0 <= j < i ==> !Test(input, Rules[j].pieces))
  {
    match FirstMatch(input, Rules)
    case None => NotDetected
    case Some(i) => Detected(Rules[i].description, Rules[i].pieces)
  }

  /** Two strings that differ at most in the ASCII case of their letters. */
  predicate SameUpToCase(s: string, t: string) {
    |s| == |t| && forall k :: 0 <= k < |s| ==> Fold(s[k]) == Fold(t[k])
  }

  lemma {:induction false} LeadCase(s: string, t: string, ps: seq<Piece>)
    requires SameUpToCase(s, t)
    ensures Lead(s, ps) == Lead(t, ps)
    decreases |ps|, |s|, 1, 0
  {
    if ps != [] {
      AltCase(s, t, ps[0], ps[1..]);
    }
  }

  lemma {:induction false} AltCase(s: string, t: string, alts: Piece, rest: seq<Piece>)
    requires SameUpToCase(s, t)
    ensures AltLead(s, alts, rest) == AltLead(t, alts, rest)
    decreases |rest| + 1, |s|, 0, |alts|
  {
    if alts != [] {
      var a := alts[0];
      assert LiteralAt(s, a) == LiteralAt(t, a);
      if |a| <= |s| {
        assert SameUpToCase(s[|a|..], t[|a|..]);
        GapCase(s[|a|..], t[|a|..], rest);
      }
      AltCase(s, t, alts[1..], rest);
    }
  }

  lemma {:induction false} GapCase(s: string, t: string, ps: seq<Piece>)
    requires SameUpToCase(s, t)
    ensures Gap(s, ps) == Gap(t, ps)
    decreases |ps|, |s|, 2, 0
  {
    if ps != [] {
      LeadCase(s, t, ps);
      if s != [] {
        FoldTerminator(s[0]);
        FoldTerminator(t[0]);
        assert SameUpToCase(s[1..], t[1..]);
        GapCase(s[1..], t[1..], ps);
      }
    }
  }

  lemma {:induction false} TestCase(s: string, t: string, ps: seq<Piece>)
    requires SameUpToCase(s, t)
    ensures Test(s, ps) == Test(t, ps)
    decreases |s|
  {
    LeadCase(s, t, ps);
    if s != [] {
      assert SameUpToCase(s[1..], t[1..]);
      TestCase(s[1..], t[1..], ps);
    }
  }

  lemma {:induction false} FirstMatchCase(s: string, t: string, rules: seq<Rule>)
    requires SameUpToCase(s, t)
    ensures FirstMatch(s, rules) == FirstMatch(t, rules)
  {
    if rules != [] {
      TestCase(s, t, rules[0].pieces);
      FirstMatchCase(s, t, rules[1..]);
    }
  }

  /** Every expression carries the `i` flag: changing the ASCII case of any
      letters of the input does not change the result. */
  lemma DetectIgnoresCase(s: string, t: string)
    requires SameUpToCase(s, t)
    ensures DetectSqlInjection(s) == DetectSqlInjection(t)
  {
    FirstMatchCase(s, t, Rules);
  }

  /** Wherever `admin'…--` matches, the `'…--` starting at its quote does. */
  lemma AdminImpliesComment(s: string)
    requires Test(s, Rules[3].pieces)
    ensures Test(s, Rules[2].pieces)
  {
    var admin: seq<Piece> := [["admin'"], ["--"]];
    assert Rules[3].pieces == admin;
    var i := TestWitness(s, admin);
    var x := s[i..];
    assert admin[0] == ["admin'"] && admin[1..] == [["--"]];
    assert AltLead(x, ["admin'"], [["--"]]);
    assert ["admin'"][1..] == [] && !AltLead(x, [], [["--"]]);
    assert LiteralAt(x, "admin'") && Gap(x[6..], [["--"]]);
    assert Fold(x[5]) == Fold('\'');
    assert x[5..][1..] == x[6..];
    assert AltLead(x[5..], ["'"], [["--"]]);
    var comment: seq<Piece> := [["'"], ["--"]];
    assert comment[0] == ["'"] && comment[1..] == [["--"]];
    assert Lead(x[5..], comment);
    assert s[i + 5..] == x[5..];
    TestAt(s, comment, i + 5);
    assert Rules[2].pieces == comment;
  }

  /** "Admin bypass with comment" is never reported: the earlier comment rule
      matches every input it would. */
  lemma AdminBypassNeverReported(s: string)
    ensures DetectSqlInjection(s) == NotDetected
         || DetectSqlInjection(s).description != "Admin bypass with comment"
  {
    var r := FirstMatch(s, Rules);
    if r == Some(3) {
      AdminImpliesComment(s);
      assert false;
    }
  }

  /** No literal of the pieces contains a line terminator. */
  predicate PieceOnOneLine(p: Piece) {
    forall j, k :: 0 <= j < |p| && 0 <= k < |p[j]| ==> !IsLineTerminator(p[j][k])
  }

  predicate OnOneLine(ps: seq<Piece>) {
    forall i :: 0 <= i < |ps| ==> PieceOnOneLine(ps[i])
  }

  lemma {:induction false} LeadCut(x: string, ps: seq<Piece>, k: nat)
    requires OnOneLine(ps) && k < |x| && IsLineTerminator(x[k])
    ensures Lead(x, ps) ==> Lead(x[..k], ps)
    decreases |ps|, |x|, 1, 0
  {
    if ps != [] {
      AltCut(x, ps[0], ps[1..], k);
    }
  }

  lemma {:induction false} AltCut(x: string, alts: Piece, rest: seq<Piece>, k: nat)
    requires PieceOnOneLine(alts) && OnOneLine(rest) && k < |x| && IsLineTerminator(x[k])
    ensures AltLead(x, alts, rest) ==> AltLead(x[..k], alts, rest)
    decreases |rest| + 1, |x|, 0, |alts|
  {
    if alts != [] {
      var a := alts[0];
      if LiteralAt(x, a) && Gap(x[|a|..], rest) {
        if |a| > k {
          FoldTerminator(a[k]);
          assert Fold(x[k]) == Fold(a[k]);
          assert !IsLineTerminator(a[k]);
          FoldTerminator(x[k]);
          assert false;
        }
        assert LiteralAt(x[..k], a);
        GapCut(x[|a|..], rest, k - |a|);
        assert x[..k][|a|..] == x[|a|..][..k - |a|];
      }
      AltCut(x, alts[1..], rest, k);
    }
  }

  lemma {:induction false} GapCut(x: string, ps: seq<Piece>, k: nat)
    requires OnOneLine(ps) && k < |x| && IsLineTerminator(x[k])
    ensures Gap(x, ps) ==> Gap(x[..k], ps)
    decreases |ps|, |x|, 2, 0
  {
    if ps != [] {
      LeadCut(x, ps, k);
      if !IsLineTerminator(x[0]) && Gap(x[1..], ps) {
        assert k > 0;
        GapCut(x[1..], ps, k - 1);
        assert x[..k][1..] == x[1..][..k - 1];
      }
    }
  }

  /** A match never spans a line terminator: whatever matches in two lines
      joined by a terminator matches in one of them. */
  lemma MatchWithinOneLine(a: string, t: char, b: string, ps: seq<Piece>)
    requires IsLineTerminator(t) && OnOneLine(ps)
    requires Test(a + [t] + b, ps)
    ensures Test(a, ps) || Test(b, ps)
  {
    var s := a + [t] + b;
    var i := TestWitness(s, ps);
    if i <= |a| {
      var k := |a| - i;
      assert s[i..][k] == t;
      LeadCut(s[i..], ps, k);
      assert s[i..][..k] == a[i..];
      TestAt(a, ps, i);
    } else {
      assert s[i..] == b[i - |a| - 1..];
      TestAt(b, ps, i - |a| - 1);
    }
  }

  lemma RulesOnOneLine()
    ensures forall i :: 0 <= i < |Rules| ==> OnOneLine(Rules[i].pieces)
  {
    forall i | 0 <= i < |Rules| ensures OnOneLine(Rules[i].pieces) {
      var ps := Rules[i].pieces;
      forall j | 0 <= j < |ps| ensures PieceOnOneLine(ps[j]) {
        forall a | 0 <= a < |ps[j]| ensures Printable(ps[j][a]) {
        }
      }
    }
  }

  /** Characters from the space to the tilde. */
  predicate Printable(w: string) {
    forall k :: 0 <= k < |w| ==> ' ' <= w[k] <= '~'
  }

  /** An input is flagged only when one of the two parts around a line
      terminator is flagged on its own. */
  lemma DetectionWithinOneLine(a: string, t: char, b: string)
    requires IsLineTerminator(t)
    requires DetectSqlInjection(a + [t] + b).Detected?
    ensures DetectSqlInjection(a).Detected? || DetectSqlInjection(b).Detected?
  {
    var i := FirstMatch(a + [t] + b, Rules).value;
    RulesOnOneLine();
    MatchWithinOneLine(a, t, b, Rules[i].pieces);
  }
}
