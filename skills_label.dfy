/**
 * The text of the dialog's skills label: one line "<i>. <name>" per chosen
 * skill, numbered from 1 in the set's iteration order, lines separated by a
 * single newline and no newline after the last one. An empty set gives the
 * empty text.
 */
module SkillsLabel {
  import opened Selection

  datatype Option<T> = None | Some(value: T)

  predicate IsDigit(c: char) {
    '0' <= c <= '9'
  }

  /** The decimal digit for d. */
  function Digit(d: nat): (c: char)
    requires d < 10
    ensures IsDigit(c) && (c as int) - ('0' as int) == d
  {
    ('0' as int + d) as char
  }

  /** Decimal rendering of a number, as the label's string builder appends an int. */
  function NatToString(n: nat): (r: string)
    ensures |r| >= 1
    ensures forall i :: 0 <= i < |r| ==> IsDigit(r[i])
    ensures r[0] == '0' ==> n == 0
  {
    if n < 10 then [Digit(n)] else NatToString(n / 10) + [Digit(n % 10)]
  }

  /** The number a string of decimal digits denotes. */
  function ParseDigits(s: string): nat
    requires forall i :: 0 <= i < |s| ==> IsDigit(s[i])
    decreases |s|
  {
    if s == [] then 0
    else
      assert IsDigit(s[|s| - 1]);
      10 * ParseDigits(s[..|s| - 1]) + ((s[|s| - 1] as int) - ('0' as int))
  }

  /** Reading a rendered number back gives the number. */
  lemma {:induction false} ParseNatToString(n: nat)
    ensures ParseDigits(NatToString(n)) == n
  {
    var r := NatToString(n);
    if n >= 10 {
      ParseNatToString(n / 10);
      assert r[..|r| - 1] == NatToString(n / 10);
    } else {
      assert r[..0] == [];
    }
  }

  /** How many decimal digits `s` starts with. */
  function LeadingDigits(s: string): (k: nat)
    ensures k <= |s|
    ensures forall i :: 0 <= i < k ==> IsDigit(s[i])
    ensures k < |s| ==> !IsDigit(s[k])
  {
    if s == [] || !IsDigit(s[0]) then 0 else 1 + LeadingDigits(s[1..])
  }

  lemma {:induction false} LeadingDigitsOfDigitsThen(d: string, rest: string)
    requires forall i :: 0 <= i < |d| ==> IsDigit(d[i])
    requires rest == [] || !IsDigit(rest[0])
    ensures LeadingDigits(d + rest) == |d|
  {
    if d != [] {
      assert (d + rest)[1..] == d[1..] + rest;
      LeadingDigitsOfDigitsThen(d[1..], rest);
    } else {
      assert d + rest == rest;
    }
  }

  /** Reads a line back into its index and its text, if it has the line's shape. */
  function ParseLine(l: string): Option<(nat, string)> {
    var k := LeadingDigits(l);
    if k == 0 || |l| < k + 2 || l[k..k + 2] != ". " then None
    else Some((ParseDigits(l[..k]), l[k + 2..]))
  }

  /**
   * One line of the label: the 1-based index, ". " and the skill's name.
   * Every line reads back as the index and the text it was built from.
   */
  function Line(index: nat, text: string): (l: string)
    ensures ParseLine(l) == Some((index, text))
  {
    DecimalLineParses(index, text);
    NatToString(index) + ". " + text
  }

  lemma DecimalLineParses(index: nat, text: string)
    ensures ParseLine(NatToString(index) + ". " + text) == Some((index, text))
  {
    var d := NatToString(index);
    var l := d + ". " + text;
    assert l == d + (". " + text);
    LeadingDigitsOfDigitsThen(d, ". " + text);
    ParseNatToString(index);
    assert l[..|d|] == d;
    assert l[|d|..|d| + 2] == ". ";
    assert l[|d| + 2..] == text;
  }

  /** The lines of the label for skills enumerated in `order`. */
  function Lines<Skill>(name: Skill -> string, order: seq<Skill>): (ls: seq<string>)
    ensures |ls| == |order|
    ensures forall i :: 0 <= i < |order| ==> ls[i] == Line(i + 1, name(order[i]))
  {
    seq(|order|, i requires 0 <= i < |order| => Line(i + 1, name(order[i])))
  }

  /** The lines separated by single newlines. */
  function Join(ls: seq<string>): string
    decreases |ls|
  {
    if ls == [] then ""
    else if |ls| == 1 then ls[0]
    else Join(ls[..|ls| - 1]) + "\n" + ls[|ls| - 1]
  }

  /** Each line followed by a newline, as the string builder holds them. */
  function Terminated(ls: seq<string>): string
    decreases |ls|
  {
    if ls == [] then "" else Terminated(ls[..|ls| - 1]) + ls[|ls| - 1] + "\n"
  }

  /** The label for the skills enumerated in `order`: empty exactly when no skill is. */
  function Summary<Skill>(name: Skill -> string, order: seq<Skill>): (r: string)
    ensures r == "" <==> order == []
  {
    Join(Lines(name, order))
  }

  /** Dropping the builder's last newline gives the joined lines. */
  lemma {:induction false} TerminatedIsJoinedPlusNewline(ls: seq<string>)
    requires ls != []
    ensures Terminated(ls) == Join(ls) + "\n"
    decreases |ls|
  {
    if |ls| > 1 {
      TerminatedIsJoinedPlusNewline(ls[..|ls| - 1]);
    } else {
      assert ls[..0] == [];
    }
  }

  /** A string cut at its newlines. */
  function Split(s: string): (parts: seq<string>)
    ensures |parts| >= 1
    decreases |s|
  {
    if s == [] then [""]
    else if s[0] == '\n' then [""] + Split(s[1..])
    else var r := Split(s[1..]); [[s[0]] + r[0]] + r[1..]
  }

  /** Cutting at a newline between two strings cuts each of them. */
  lemma {:induction false} SplitAtNewline(a: string, b: string)
    ensures Split(a + "\n" + b) == Split(a) + Split(b)
    decreases |a|
  {
    if a == [] {
      assert a + "\n" + b == "\n" + b;
      assert ("\n" + b)[1..] == b;
    } else {
      assert (a + "\n" + b)[1..] == a[1..] + "\n" + b;
      assert (a + "\n" + b)[0] == a[0];
      SplitAtNewline(a[1..], b);
    }
  }

  predicate NoNewline(s: string) {
    forall i :: 0 <= i < |s| ==> s[i] != '\n'
  }

  lemma {:induction false} SplitWithoutNewline(s: string)
    requires NoNewline(s)
    ensures Split(s) == [s]
    decreases |s|
  {
    if s != [] {
      SplitWithoutNewline(s[1..]);
      assert [s[0]] + s[1..] == s;
    }
  }

  /** Cutting the joined lines at their newlines gives the lines back. */
  lemma {:induction false} SplitJoin(ls: seq<string>)
    requires ls != []
    requires forall i :: 0 <= i < |ls| ==> NoNewline(ls[i])
    ensures Split(Join(ls)) == ls
    decreases |ls|
  {
    var last := ls[|ls| - 1];
    SplitWithoutNewline(last);
    if |ls| > 1 {
      var init := ls[..|ls| - 1];
      SplitJoin(init);
      SplitAtNewline(Join(init), last);
      assert init + [last] == ls;
    }
  }

  /** A name is written into the label without a newline. */
  predicate SingleLineNames<Skill>(name: Skill -> string, order: seq<Skill>) {
    forall i :: 0 <= i < |order| ==> NoNewline(name(order[i]))
  }

  /**
   * For skills whose names hold no newline, the label of n >= 1 skills has
   * exactly n lines, and line i reads back as index i + 1 and the name of
   * the i-th skill in enumeration order.
   */
  lemma SummaryReadsBack<Skill>(name: Skill -> string, order: seq<Skill>)
    requires order != [] && SingleLineNames(name, order)
    ensures |Split(Summary(name, order))| == |order|
    ensures forall i :: 0 <= i < |order| ==>
      ParseLine(Split(Summary(name, order))[i]) == Some((i + 1, name(order[i])))
  {
    var ls := Lines(name, order);
    forall i | 0 <= i < |ls| ensures NoNewline(ls[i]) {
      var d := NatToString(i + 1);
      assert ls[i] == d + ". " + name(order[i]);
      forall j | 0 <= j < |ls[i]| ensures ls[i][j] != '\n' {
        if j < |d| {
          assert ls[i][j] == d[j];
        } else if j >= |d| + 2 {
          assert ls[i][j] == name(order[i])[j - |d| - 2];
        }
      }
    }
    SplitJoin(ls);
  }

  /** The label of a set of n >= 1 skills has exactly n lines. */
  lemma SetSummaryLineCount<Skill>(name: Skill -> string, order: seq<Skill>, skills: set<Skill>)
    requires Enumerates(order, skills) && skills != {} && SingleLineNames(name, order)
    ensures |Split(Summary(name, order))| == |skills|
  {
    EnumerationSize(order, skills);
    SummaryReadsBack(name, order);
  }

  /** The builder's text grows by one line and a newline per line. */
  lemma TerminatedSnoc(ls: seq<string>, l: string)
    ensures Terminated(ls + [l]) == Terminated(ls) + l + "\n"
  {
    assert (ls + [l])[..|ls|] == ls;
  }

  /** Appending the index, ". ", the name and a newline appends one line and a newline. */
  lemma AppendLine(sb: string, index: nat, text: string)
    ensures sb + NatToString(index) + ". " + text + "\n" == sb + Line(index, text) + "\n"
  {
  }

  /** The lines of a longer enumeration extend the lines of the shorter one. */
  lemma LinesSnoc<Skill>(name: Skill -> string, order: seq<Skill>, skill: Skill)
    ensures Lines(name, order + [skill]) == Lines(name, order) + [Line(|order| + 1, name(skill))]
  {
    var ls := Lines(name, order + [skill]);
    assert ls[..|order|] == Lines(name, order);
    assert ls == ls[..|order|] + [ls[|order|]];
  }

  /**
   * Builds the label for `skills` as the dialog does: for each skill in the
   * set's iteration order append "<index>. <name>\n", counting from 1, then
   * delete the last character if anything was written. The iteration order
   * is not specified; `order` returns the one this run used.
   */
  method RenderSummary<Skill(==)>(name: Skill -> string, skills: set<Skill>)
    returns (text: string, order: seq<Skill>)
    ensures Enumerates(order, skills)
    ensures text == Summary(name, order)
  {
    var sb: string := "";
    var index: nat := 1;
    var rest := skills;
    order := [];
    while rest != {}
      invariant rest !! Elems(order) && rest + Elems(order) == skills
      invariant Distinct(order)
      invariant index == |order| + 1
      invariant sb == Terminated(Lines(name, order))
      decreases rest
    {
      var skill :| skill in rest;
      AppendLine(sb, index, name(skill));
      sb := sb + NatToString(index) + ". " + name(skill) + "\n";
      index := index + 1;
      LinesSnoc(name, order, skill);
      TerminatedSnoc(Lines(name, order), Line(|order| + 1, name(skill)));
      order := order + [skill];
      rest := rest - {skill};
    }
    if |sb| > 0 {
      sb := sb[..|sb| - 1];
    }
    if order != [] {
      TerminatedIsJoinedPlusNewline(Lines(name, order));
    }
    text := sb;
  }
}
