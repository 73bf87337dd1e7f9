/**
 * Entity extraction of the query assistant's NLP processor
 * (`NLPProcessor.extract_entities`): a department name, a salary threshold
 * and a year, pulled out of lower-cased question text by ordered substring
 * checks and two regular-expression searches.
 */
module NlpEntities {
  import opened Wrappers
  import opened Text

  /** The department vocabulary, in scanning order. */
  const Departments: seq<string> := ["it", "engineering", "marketing", "hr", "sales", "finance"]

  /** The entity dictionary; `limit` is reserved and never filled. */
  datatype Entities = Entities(department: Option<string>, salary: Option<nat>, date: Option<string>, limit: Option<nat>)

  // ---------------------------------------------------------------------
  // Department: first vocabulary entry occurring in the text, upper-cased

  function DepartmentOf(text: string): (d: Option<string>)
    ensures d.None? <==> forall j :: 0 <= j < |Departments| ==> !Contains(text, Departments[j])
    ensures d.Some? ==> exists k :: 0 <= k < |Departments| && Contains(text, Departments[k])
                                    && d.value == Upper(Departments[k])
                                    && forall j :: 0 <= j < k ==> !Contains(text, Departments[j])
  {
    match FirstContained(text, Departments)
    case None => None
    case Some(k) => Some(Upper(Departments[k]))
  }

  // ---------------------------------------------------------------------
  // Salary: regular expression `\d+(?:,\d{3})*`, first match

  /** A comma followed by exactly three digits starts at `j`. */
  predicate CommaGroupAt(s: string, j: int) {
    0 <= j && j + 4 <= |s| && s[j] == ',' && IsDigit(s[j + 1]) && IsDigit(s[j + 2]) && IsDigit(s[j + 3])
  }

  /** The strings the pattern `\d+(?:,\d{3})*` matches as a whole. */
  predicate IsNumberToken(m: string)
    decreases |m|
  {
    (|m| >= 1 && AllDigits(m))
    || (|m| >= 5 && m[|m| - 4] == ',' && AllDigits(m[|m| - 3..]) && IsNumberToken(m[..|m| - 4]))
  }

  /** Index of the first digit at or after `i`, or `|s|` when there is none. */
  function FirstDigitFrom(s: string, i: nat): (k: nat)
    requires i <= |s|
    ensures i <= k <= |s|
    ensures k < |s| ==> IsDigit(s[k])
    ensures forall j :: i <= j < k ==> !IsDigit(s[j])
    decreases |s| - i
  {
    if i == |s| || IsDigit(s[i]) then i else FirstDigitFrom(s, i + 1)
  }

  /** End of the longest run of digits starting at `i`. */
  function DigitRunEnd(s: string, i: nat): (j: nat)
    requires i <= |s|
    ensures i <= j <= |s|
    ensures forall k :: i <= k < j ==> IsDigit(s[k])
    ensures j < |s| ==> !IsDigit(s[j])
    decreases |s| - i
  {
    if i < |s| && IsDigit(s[i]) then DigitRunEnd(s, i + 1) else i
  }

  /** Greedy repetition of `,\d{3}` from `j`. */
  function GroupsEnd(s: string, j: nat): (e: nat)
    requires j <= |s|
    ensures j <= e <= |s|
    ensures !CommaGroupAt(s, e)
    decreases |s| - j
  {
    if CommaGroupAt(s, j) then GroupsEnd(s, j + 4) else j
  }

  /**
   * `re.search(r'(\d+(?:,\d{3})*)', s).group(1)`: starts at the first digit,
   * takes the whole digit run and then every comma group that follows.
   */
  function SalaryMatch(s: string): Option<string> {
    var i := FirstDigitFrom(s, 0);
    if i == |s| then None else Some(s[i..GroupsEnd(s, DigitRunEnd(s, i))])
  }

  /** `m.replace(',', '')`. */
  function RemoveCommas(m: string): (r: string)
    ensures ',' !in r && |r| <= |m|
    ensures ',' !in m ==> r == m
    ensures (forall k :: 0 <= k < |m| ==> m[k] == ',' || IsDigit(m[k])) ==> AllDigits(r)
    decreases |m|
  {
    if m == [] then []
    else
      var front := m[..|m| - 1];
      assert ',' !in m ==> ',' !in front;
      assert m == front + [m[|m| - 1]];
      RemoveCommas(front) + (if m[|m| - 1] == ',' then [] else [m[|m| - 1]])
  }

  /** Removing commas from a string with one more character: that character is dropped exactly when it is a comma. */
  lemma RemoveCommasSnoc(m: string, c: char)
    ensures RemoveCommas(m + [c]) == RemoveCommas(m) + (if c == ',' then [] else [c])
  {
    assert (m + [c])[..|m|] == m;
  }

  /** Removing commas works piece by piece: the pieces' results are concatenated. */
  lemma {:induction false} RemoveCommasAppend(a: string, b: string)
    ensures RemoveCommas(a + b) == RemoveCommas(a) + RemoveCommas(b)
    decreases |b|
  {
    if b == [] {
      assert a + b == a;
    } else {
      var front, last := b[..|b| - 1], b[|b| - 1];
      assert a + b == (a + front) + [last] && b == front + [last];
      RemoveCommasAppend(a, front);
      RemoveCommasSnoc(a + front, last);
      RemoveCommasSnoc(front, last);
    }
  }

  /**
   * The value of a number token read the way it is written: the digits of a
   * plain run, or the value before the last comma group times a thousand
   * plus the group's three digits.
   */
  function NumberValue(m: string): nat
    requires IsNumberToken(m)
    decreases |m|
  {
    if |m| >= 1 && AllDigits(m) then ParseDecimal(m)
    else NumberValue(m[..|m| - 4]) * 1000 + ParseDecimal(m[|m| - 3..])
  }

  /** Dropping the commas of a number token and reading the digits gives its written value. */
  lemma {:induction false} RemoveCommasReadsNumber(m: string)
    requires IsNumberToken(m)
    ensures AllDigits(RemoveCommas(m)) && ParseDecimal(RemoveCommas(m)) == NumberValue(m)
    decreases |m|
  {
    if |m| >= 1 && AllDigits(m) {
      assert ',' !in m by {
        forall k | 0 <= k < |m| ensures m[k] != ',' {
          assert IsDigit(m[k]);
        }
      }
    } else {
      var front, group := m[..|m| - 4], m[|m| - 3..];
      assert m == front + [','] + group;
      RemoveCommasReadsNumber(front);
      RemoveCommasGroup(front, group);
      ParseDecimalGroup(RemoveCommas(front), group);
    }
  }

  /** A comma followed by three digits contributes just the three digits. */
  lemma RemoveCommasGroup(front: string, group: string)
    requires |group| == 3 && AllDigits(group)
    ensures RemoveCommas(front + [','] + group) == RemoveCommas(front) + group
  {
    assert ',' !in group by {
      forall k | 0 <= k < |group| ensures group[k] != ',' {
        assert IsDigit(group[k]);
      }
    }
    RemoveCommasAppend(front + [','], group);
    RemoveCommasSnoc(front, ',');
  }

  /** Every character between `i` and `e` is a digit or a comma. */
  lemma {:induction false} GroupsEndChars(s: string, i: nat, j: nat)
    requires i <= j <= |s|
    requires forall k :: i <= k < j ==> s[k] == ',' || IsDigit(s[k])
    ensures forall k :: i <= k < GroupsEnd(s, j) ==> s[k] == ',' || IsDigit(s[k])
    decreases |s| - j
  {
    if CommaGroupAt(s, j) {
      GroupsEndChars(s, i, j + 4);
    }
  }

  /**
   * The salary entity: present only when the text mentions `salary` or
   * `paid` and has a digit; the value is the matched token with its commas
   * removed, read as a decimal number.
   */
  function SalaryOf(text: string): (r: Option<nat>)
    ensures r.Some? <==> (exists k :: 0 <= k < |text| && IsDigit(text[k]))
                         && (Contains(text, "salary") || Contains(text, "paid"))
    ensures r.Some? ==> SalaryMatch(text).Some? && IsNumberToken(SalaryMatch(text).value)
                        && r.value == NumberValue(SalaryMatch(text).value)
  {
    match SalaryMatch(text)
    case None => None
    case Some(m) =>
      if Contains(text, "salary") || Contains(text, "paid") then
        SalaryMatchReadable(text);
        SalaryMatchIsLeftmostLongest(text);
        RemoveCommasReadsNumber(m);
        Some(ParseDecimal(RemoveCommas(m)))
      else None
  }

  /** The matched token consists of digits and commas, so without its commas it is a digit string. */
  lemma SalaryMatchReadable(s: string)
    ensures SalaryMatch(s).Some? ==> AllDigits(RemoveCommas(SalaryMatch(s).value))
  {
    var i := FirstDigitFrom(s, 0);
    if i < |s| {
      GroupsEndChars(s, i, DigitRunEnd(s, i));
      var m := SalaryMatch(s).value;
      assert forall k :: 0 <= k < |m| ==> m[k] == s[i + k];
    }
  }

  /** Positions `R`, `R + 4`, ... reached by taking comma groups one by one from `R`. */
  predicate OnGroupChain(s: string, r: nat, p: nat)
    decreases p
  {
    p == r || (p >= r + 4 && CommaGroupAt(s, p - 4) && OnGroupChain(s, r, p - 4))
  }

  lemma {:induction false} ChainBelowGroupsEnd(s: string, r: nat, p: nat)
    requires r <= |s| && OnGroupChain(s, r, p)
    ensures p <= |s| && GroupsEnd(s, r) == GroupsEnd(s, p)
    decreases p
  {
    if p != r {
      ChainBelowGroupsEnd(s, r, p - 4);
    }
  }

  /** Any number token starting at a digit `i` ends on the comma-group chain of that digit run, or inside the run. */
  lemma {:induction false} TokenEndsOnChain(s: string, i: nat, e: nat)
    requires i < e <= |s| && IsNumberToken(s[i..e])
    ensures e <= DigitRunEnd(s, i) || OnGroupChain(s, DigitRunEnd(s, i), e)
    ensures OnGroupChain(s, DigitRunEnd(s, i), e) ==> e >= DigitRunEnd(s, i)
    decreases e - i
  {
    var m := s[i..e];
    var run := DigitRunEnd(s, i);
    if |m| >= 1 && AllDigits(m) {
      forall k | i <= k < e ensures IsDigit(s[k]) {
        assert s[k] == m[k - i];
      }
    } else {
      assert m[..|m| - 4] == s[i..e - 4];
      assert m[|m| - 3..] == s[e - 3..e];
      TokenEndsOnChain(s, i, e - 4);
      assert s[e - 4] == m[|m| - 4];
      assert IsDigit(s[e - 3]) && IsDigit(s[e - 2]) && IsDigit(s[e - 1]) by {
        assert s[e - 3] == m[|m| - 3..][0];
        assert s[e - 2] == m[|m| - 3..][1];
        assert s[e - 1] == m[|m| - 3..][2];
      }
      assert CommaGroupAt(s, e - 4);
      if e - 4 == run {
        assert OnGroupChain(s, run, e - 4);
      }
    }
  }

  /** A point on the chain before the greedy end still has a comma group after it. */
  lemma {:induction false} ChainStep(s: string, r: nat, p: nat)
    requires r <= |s| && OnGroupChain(s, r, p) && CommaGroupAt(s, p)
    ensures p + 4 <= GroupsEnd(s, r)
  {
    ChainBelowGroupsEnd(s, r, p);
    assert GroupsEnd(s, p) == GroupsEnd(s, p + 4);
  }

  /** No point of the chain lies beyond the greedy end. */
  lemma {:induction false} ChainWithinGreedy(s: string, r: nat, p: nat)
    requires r <= |s| && OnGroupChain(s, r, p)
    ensures p <= GroupsEnd(s, r)
    decreases p
  {
    if p != r {
      ChainWithinGreedy(s, r, p - 4);
      if p - 4 < GroupsEnd(s, r) {
        ChainStep(s, r, p - 4);
      }
    }
  }

  /** Each comma group extends the chain. */
  lemma {:induction false} GroupsEndOnChain(s: string, r: nat, j: nat)
    requires r <= j <= |s| && OnGroupChain(s, r, j)
    ensures OnGroupChain(s, r, GroupsEnd(s, j))
    decreases |s| - j
  {
    if CommaGroupAt(s, j) {
      assert OnGroupChain(s, r, j + 4);
      GroupsEndOnChain(s, r, j + 4);
    }
  }

  /** The greedy match is itself a number token. */
  lemma {:induction false} GreedyIsToken(s: string, i: nat, e: nat)
    requires i < |s| && IsDigit(s[i])
    requires DigitRunEnd(s, i) <= e <= |s| && OnGroupChain(s, DigitRunEnd(s, i), e)
    ensures IsNumberToken(s[i..e])
    decreases e
  {
    var run := DigitRunEnd(s, i);
    var m := s[i..e];
    if e == run {
      assert AllDigits(m) by {
        forall k | 0 <= k < |m| ensures IsDigit(m[k]) {
          assert m[k] == s[i + k];
        }
      }
    } else {
      GreedyIsToken(s, i, e - 4);
      assert m[..|m| - 4] == s[i..e - 4];
      assert m[|m| - 4] == s[e - 4];
      assert AllDigits(m[|m| - 3..]) by {
        assert m[|m| - 3..] == s[e - 3..e];
      }
    }
  }

  /**
   * The salary token is the leftmost-longest match of `\d+(?:,\d{3})*`:
   * it is a number token, nothing before it is a digit, and no longer
   * prefix of the rest of the text is a number token.
   */
  lemma SalaryMatchIsLeftmostLongest(s: string)
    ensures SalaryMatch(s).Some? <==> exists k :: 0 <= k < |s| && IsDigit(s[k])
    ensures SalaryMatch(s).Some? ==>
      var m := SalaryMatch(s).value;
      exists i :: OccursAt(s, m, i) && IsNumberToken(m)
                  && (forall k :: 0 <= k < i ==> !IsDigit(s[k]))
                  && (forall e :: i + |m| < e <= |s| ==> !IsNumberToken(s[i..e]))
  {
    var i := FirstDigitFrom(s, 0);
    if i < |s| {
      var run := DigitRunEnd(s, i);
      var g := GroupsEnd(s, run);
      assert OnGroupChain(s, run, run);
      GroupsEndOnChain(s, run, run);
      GreedyIsToken(s, i, g);
      var m := s[i..g];
      assert SalaryMatch(s) == Some(m);
      forall e | g < e <= |s| ensures !IsNumberToken(s[i..e]) {
        if IsNumberToken(s[i..e]) {
          TokenEndsOnChain(s, i, e);
          if e > run {
            ChainWithinGreedy(s, run, e);
          }
        }
      }
      assert OccursAt(s, m, i);
    }
  }

  // ---------------------------------------------------------------------
  // Year: regular expression `20\d{2}`, first match, kept verbatim

  predicate YearAt(s: string, i: int) {
    0 <= i && i + 4 <= |s| && s[i] == '2' && s[i + 1] == '0' && IsDigit(s[i + 2]) && IsDigit(s[i + 3])
  }

  function FirstYearFrom(s: string, i: nat): (r: Option<nat>)
    requires i <= |s|
    ensures r.Some? ==> i <= r.value && YearAt(s, r.value)
    ensures r.Some? ==> forall j :: i <= j < r.value ==> !YearAt(s, j)
    ensures r.None? ==> forall j :: i <= j ==> !YearAt(s, j)
    decreases |s| - i
  {
    if i + 4 > |s| then None
    else if YearAt(s, i) then Some(i)
    else FirstYearFrom(s, i + 1)
  }

  /** `re.search(r'(20\d{2})', s).group(1)`: the first `20` followed by two digits, as four characters. */
  function YearOf(s: string): (y: Option<string>)
    ensures y.None? <==> forall i :: !YearAt(s, i)
    ensures y.Some? ==> |y.value| == 4 && y.value[..2] == "20" && AllDigits(y.value)
    ensures y.Some? ==> exists i :: YearAt(s, i) && s[i..i + 4] == y.value
                                    && forall j :: 0 <= j < i ==> !YearAt(s, j)
  {
    match FirstYearFrom(s, 0)
    case None => None
    case Some(i) => Some(s[i..i + 4])
  }

  // ---------------------------------------------------------------------
  // The whole entity dictionary

  function EntitiesOf(text: string): Entities {
    Entities(DepartmentOf(text), SalaryOf(text), YearOf(text), None)
  }

  /**
   * `extract_entities`: scans the department vocabulary in order and stops
   * at the first entry found, then runs the salary and year searches.
   */
  method ExtractEntities(text: string) returns (e: Entities)
    ensures e == EntitiesOf(text)
    ensures e.limit == None
  {
    var department: Option<string> := None;
    for k := 0 to |Departments|
      invariant forall j :: 0 <= j < k ==> !Contains(text, Departments[j])
      invariant department == None
    {
      if Contains(text, Departments[k]) {
        FirstContainedUnique(text, Departments, k);
        department := Some(Upper(Departments[k]));
        break;
      }
    }
    assert department == DepartmentOf(text);

    var salary: Option<nat> := None;
    var salaryMatch := SalaryMatch(text);
    if salaryMatch.Some? && (Contains(text, "salary") || Contains(text, "paid")) {
      SalaryMatchReadable(text);
      salary := Some(ParseDecimal(RemoveCommas(salaryMatch.value)));
    }
    assert salary == SalaryOf(text);

    var date: Option<string> := None;
    var yearMatch := YearOf(text);
    if yearMatch.Some? {
      date := Some(yearMatch.value);
    }

    e := Entities(department, salary, date, None);
  }
}
