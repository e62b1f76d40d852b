/**
 * What one typed answer to the project prompt of `select_project` selects,
 * and the number check of `select_company`. Projects and companies are
 * numbered from 1 on screen; the result is the list of 0-based positions into
 * the fetched list, or the reason the answer is refused, after which the
 * program asks again.
 */
module Selection {
  import opened Wrappers
  import opened Text

  /**
   * The three messages of a refused answer: a `ValueError` ("Invalid input"),
   * a well-formed range outside the list ("Invalid range"), and a well-formed
   * number or list outside it ("Invalid selection").
   */
  datatype Rejection = InvalidInput | InvalidRange | InvalidSelection

  datatype Choice = Chosen(indices: seq<nat>) | Rejected(reason: Rejection)

  /** The answer as the parser reads it: `input().strip().lower()`. */
  function Canonical(input: string): string {
    Lower(Strip(input))
  }

  /** The positions `lo, lo + 1, ..., hi - 1`: what the slice `projects[lo:hi]` takes. */
  function Upto(lo: nat, hi: nat): (r: seq<nat>)
    requires lo <= hi
    ensures |r| == hi - lo
    ensures forall k :: 0 <= k < |r| ==> r[k] == lo + k
    decreases hi - lo
  {
    if lo == hi then [] else [lo] + Upto(lo + 1, hi)
  }

  /** `int(x.strip())` on one piece of a list answer. */
  function Item(x: string): Option<int> {
    ParseInt(Strip(x))
  }

  /**
   * A list comprehension over `parts` whose element expression may raise:
   * all the values in order, or None as soon as one element fails.
   */
  function ParseAll<T>(parts: seq<string>, item: string -> Option<T>): Option<seq<T>> {
    if parts == [] then Some([])
    else
      match item(parts[0])
      case None => None
      case Some(k) =>
        match ParseAll(parts[1..], item)
        case None => None
        case Some(ks) => Some([k] + ks)
  }

  /** The list is read exactly when every piece is read, and then holds their values in order. */
  lemma {:induction false} ParseAllItems<T>(parts: seq<string>, item: string -> Option<T>)
    ensures ParseAll(parts, item).Some? <==> forall i :: 0 <= i < |parts| ==> item(parts[i]).Some?
    ensures ParseAll(parts, item).Some? ==>
              var ks := ParseAll(parts, item).value;
              |ks| == |parts| && forall i :: 0 <= i < |parts| ==> item(parts[i]) == Some(ks[i])
  {
    if parts != [] {
      var rest := parts[1..];
      ParseAllItems(rest, item);
      assert forall i :: 0 <= i < |rest| ==> rest[i] == parts[i + 1];
      if item(parts[0]).Some? && ParseAll(rest, item).Some? {
        var ks := [item(parts[0]).value] + ParseAll(rest, item).value;
        assert ParseAll(parts, item) == Some(ks);
        forall i | 0 <= i < |parts|
          ensures item(parts[i]) == Some(ks[i])
        {
          if i > 0 {
            assert ks[i] == ParseAll(rest, item).value[i - 1];
          }
        }
      } else if item(parts[0]).None? {
        assert ParseAll(parts, item).None?;
      } else {
        assert ParseAll(parts, item).None?;
        var j :| 0 <= j < |rest| && item(rest[j]).None?;
        assert item(parts[j + 1]).None?;
      }
    }
  }

  /** Whether every number is one of the `n` on-screen numbers. */
  predicate AllListed(ks: seq<int>, n: nat) {
    forall i :: 0 <= i < |ks| ==> 1 <= ks[i] <= n
  }

  /** On-screen numbers to positions, order and duplicates kept. */
  function ZeroBased(ks: seq<int>): (r: seq<nat>)
    requires forall i :: 0 <= i < |ks| ==> ks[i] >= 1
    ensures |r| == |ks| && forall i :: 0 <= i < |ks| ==> r[i] == ks[i] - 1
  {
    if ks == [] then [] else [ks[0] - 1 as nat] + ZeroBased(ks[1..])
  }

  /** An accepted answer selects only positions of the `n` listed projects. */
  predicate InList(r: Choice, n: nat) {
    r.Chosen? ==> forall i :: 0 <= i < |r.indices| ==> r.indices[i] < n
  }

  /**
   * One answer to the project prompt, against a list of `n` projects:
   * `all`; a range `a-b` (a '-' and no ','); a comma-separated list; or a
   * single number.
   */
  function ParseSelection(input: string, n: nat): (r: Choice)
    ensures InList(r, n)
  {
    Classify(Canonical(input), n)
  }

  /** The four forms, told apart as the source does, in this order. */
  function Classify(c: string, n: nat): (r: Choice)
    ensures InList(r, n)
  {
    if c == "all" then Chosen(Upto(0, n))
    else if '-' in c && ',' !in c then RangeChoice(c, n)
    else if ',' in c then ListChoice(c, n)
    else SingleChoice(c, n)
  }

  /** `start, end = choice.split('-')`: exactly two pieces, else a ValueError. */
  function RangeChoice(c: string, n: nat): (r: Choice)
    ensures InList(r, n)
  {
    var parts := Split(c, '-');
    if |parts| != 2 then Rejected(InvalidInput)
    else RangeOf(ParseInt(parts[0]), ParseInt(parts[1]), n)
  }

  /** Both ends must be integers with `1 <= start <= end <= n`; the slice then takes `start .. end`. */
  function RangeOf(start: Option<int>, end: Option<int>, n: nat): (r: Choice)
    ensures InList(r, n)
    ensures r.Chosen? ==> start.Some? && end.Some?
  {
    if start.None? || end.None? then Rejected(InvalidInput)
    else
      var a, b := start.value, end.value;
      if 1 <= a <= b <= n then
        var r := Upto(a - 1, b);
        assert forall k :: 0 <= k < |r| ==> r[k] < n;
        Chosen(r)
      else Rejected(InvalidRange)
  }

  /** `[int(x.strip()) for x in choice.split(',')]`: every piece must be an integer. */
  function ListChoice(c: string, n: nat): (r: Choice)
    ensures InList(r, n)
  {
    ListOf(ParseAll(Split(c, ','), Item), n)
  }

  /** Every integer of the list must be one of `1 .. n`. */
  function ListOf(numbers: Option<seq<int>>, n: nat): (r: Choice)
    ensures InList(r, n)
  {
    match numbers
    case None => Rejected(InvalidInput)
    case Some(ks) =>
      if AllListed(ks, n) then
        assert forall i :: 0 <= i < |ks| ==> ks[i] >= 1;
        var z := ZeroBased(ks);
        assert forall i :: 0 <= i < |z| ==> z[i] < n;
        Chosen(z)
      else Rejected(InvalidSelection)
  }

  /** The whole answer must be an integer. */
  function SingleChoice(c: string, n: nat): (r: Choice)
    ensures InList(r, n)
  {
    NumberChoice(ParseInt(c), n)
  }

  /** `int(choice) - 1` must be a position in the list. */
  function NumberChoice(number: Option<int>, n: nat): (r: Choice)
    ensures InList(r, n)
  {
    match number
    case None => Rejected(InvalidInput)
    case Some(k) => if 1 <= k <= n then Chosen([k - 1]) else Rejected(InvalidSelection)
  }

  /** The projects an accepted answer selects: `[projects[i] for i in indices]`. */
  function Selected<T>(projects: seq<T>, indices: seq<nat>): (r: seq<T>)
    requires forall i :: 0 <= i < |indices| ==> indices[i] < |projects|
    ensures |r| == |indices| && forall i :: 0 <= i < |r| ==> r[i] == projects[indices[i]]
  {
    if indices == [] then [] else [projects[indices[0]]] + Selected(projects, indices[1..])
  }

  // ---------------------------------------------------------------------------
  // Properties of the project prompt

  /** Surrounding whitespace and letter case never change what an answer selects. */
  lemma CanonicalIrrelevant(input: string, n: nat)
    ensures ParseSelection(Canonical(input), n) == ParseSelection(input, n)
  {
    var t := Strip(input);
    StripLower(t);
    StripIdempotent(input);
    LowerIdempotent(t);
    assert Canonical(Canonical(input)) == Lower(Lower(t));
  }

  /** The positions of a range pick out exactly the slice `projects[lo:hi]`; for `all`, the whole list. */
  lemma SliceIsSelected<T>(projects: seq<T>, lo: nat, hi: nat)
    requires lo <= hi <= |projects|
    ensures Selected(projects, Upto(lo, hi)) == projects[lo..hi]
    ensures Selected(projects, Upto(0, |projects|)) == projects
  {
    var r := Selected(projects, Upto(lo, hi));
    assert forall k :: 0 <= k < |r| ==> r[k] == projects[lo..hi][k];
    var all := Selected(projects, Upto(0, |projects|));
    assert forall k :: 0 <= k < |all| ==> all[k] == projects[k];
  }

  /** `all`, in any case and with any surrounding whitespace, selects every project once, in list order. */
  lemma AllSelectsEverything(input: string, n: nat)
    requires Canonical(input) == "all"
    ensures var r := ParseSelection(input, n);
            r.Chosen? && |r.indices| == n && forall i :: 0 <= i < n ==> r.indices[i] == i
  {
  }

  /** A string of digits, commas and dashes is its own canonical form. */
  lemma NumeralCanonical(s: string)
    requires forall i :: 0 <= i < |s| ==> IsDigit(s[i]) || s[i] == ',' || s[i] == '-'
    ensures Canonical(s) == s
  {
    assert Trimmed(s) by {
      if s != [] {
        assert !IsSpace(s[0]) && !IsSpace(s[|s| - 1]);
      }
    }
    StripTrimmed(s);
    assert forall i :: 0 <= i < |s| ==> !IsUpper(s[i]);
    LowerKeeps(s);
  }

  predicate RangeChar(c: char) {
    IsDigit(c) || c == '-'
  }

  /**
   * The range `a-b` selects the projects numbered `a` to `b`, both included,
   * when `1 <= a <= b <= n`; any other range of numbers is refused as a range.
   */
  lemma RangeRoundTrip(a: nat, b: nat, n: nat)
    ensures var r := ParseSelection(Dec(a) + "-" + Dec(b), n);
            if 1 <= a <= b <= n then
              r.Chosen? && |r.indices| == b - a + 1 && forall k :: 0 <= k < |r.indices| ==> r.indices[k] == a - 1 + k
            else r == Rejected(InvalidRange)
  {
    RangeParsed(a, b, n);
    RangeSpan(a, b, n);
  }

  /** The answer `a-b` is read as a range whose ends are `a` and `b`. */
  lemma RangeParsed(a: nat, b: nat, n: nat)
    ensures ParseSelection(Dec(a) + "-" + Dec(b), n) == RangeOf(Some(a), Some(b), n)
  {
    var s := Dec(a) + "-" + Dec(b);
    RangeText(a, b);
    assert ParseSelection(s, n) == RangeChoice(s, n);
    ParseIntDec(a);
    ParseIntDec(b);
  }

  /** The slice `projects[a-1:b]` of a valid range, and the refusal of any other. */
  lemma RangeSpan(a: int, b: int, n: nat)
    ensures var r := RangeOf(Some(a), Some(b), n);
            if 1 <= a <= b <= n then
              r.Chosen? && |r.indices| == b - a + 1 && forall k :: 0 <= k < |r.indices| ==> r.indices[k] == a - 1 + k
            else r == Rejected(InvalidRange)
  {
  }

  /** How the range answer for `a` and `b` reads. */
  lemma RangeText(a: nat, b: nat)
    ensures var s := Dec(a) + "-" + Dec(b);
            Canonical(s) == s && s != "all" && '-' in s && ',' !in s && Split(s, '-') == [Dec(a), Dec(b)]
  {
    RangeTextChars(a, b);
    RangeTextSplit(a, b);
  }

  /** The range answer is made of digits and one '-', so it is canonical and is not "all". */
  lemma RangeTextChars(a: nat, b: nat)
    ensures var s := Dec(a) + "-" + Dec(b);
            Canonical(s) == s && s != "all" && '-' in s && ',' !in s
  {
    var parts := [Dec(a), Dec(b)];
    var s := Dec(a) + "-" + Dec(b);
    assert JoinWith(parts, '-') == s;
    assert forall i :: 0 <= i < |s| ==> RangeChar(s[i]) by {
      JoinWithChars(parts, '-', RangeChar);
    }
    NumeralCanonical(s);
    assert s[|Dec(a)|] == '-';
    assert RangeChar(s[0]);
  }

  /** Splitting the range answer at '-' gives back the two numbers. */
  lemma RangeTextSplit(a: nat, b: nat)
    ensures Split(Dec(a) + "-" + Dec(b), '-') == [Dec(a), Dec(b)]
  {
    var parts := [Dec(a), Dec(b)];
    assert JoinWith(parts, '-') == Dec(a) + "-" + Dec(b);
    DecPlain(a);
    DecPlain(b);
    SplitJoinWith(parts, '-');
  }

  /** The answer `k1,k2,...` (or the single number `k1`) typed for the numbers `ks`. */
  function Numbers(ks: seq<nat>): (r: seq<string>)
    ensures |r| == |ks| && forall i :: 0 <= i < |ks| ==> r[i] == Dec(ks[i])
  {
    if ks == [] then [] else [Dec(ks[0])] + Numbers(ks[1..])
  }

  predicate ListChar(c: char) {
    IsDigit(c) || c == ','
  }

  /** `int(str(k).strip()) == k`. */
  lemma ItemDec(k: nat)
    ensures Item(Dec(k)) == Some(k)
  {
    var s := Dec(k);
    assert !IsSpace(s[0]) && !IsSpace(s[|s| - 1]);
    StripTrimmed(s);
    ParseIntDec(k);
  }

  /** The list answer for `ks` is made of digits and commas. */
  lemma ListChars(ks: seq<nat>)
    requires |ks| > 0
    ensures var s := JoinWith(Numbers(ks), ',');
            s != [] && forall i :: 0 <= i < |s| ==> ListChar(s[i])
  {
    var parts := Numbers(ks);
    assert parts[0] == Dec(ks[0]);
    assert |parts| > 1 ==> JoinWith(parts, ',') == parts[0] + [','] + JoinWith(parts[1..], ',');
    forall i, k | 0 <= i < |parts| && 0 <= k < |parts[i]|
      ensures ListChar(parts[i][k])
    {
      assert parts[i] == Dec(ks[i]);
    }
    JoinWithChars(parts, ',', ListChar);
  }

  /** Digits and commas: already canonical, not `all`, and not a range. */
  lemma ListForm(s: string)
    requires s != [] && forall i :: 0 <= i < |s| ==> ListChar(s[i])
    ensures Canonical(s) == s && s != "all" && '-' !in s
  {
    NumeralCanonical(s);
    assert forall i :: 0 <= i < |s| ==> s[i] != '-';
    assert ListChar(s[0]);
  }

  /** How the list answer for `ks` reads: the numbers, in order, separated by commas. */
  lemma ListText(ks: seq<nat>)
    requires |ks| > 0
    ensures var s := JoinWith(Numbers(ks), ',');
            Canonical(s) == s && s != "all" && '-' !in s && (',' in s <==> |ks| > 1)
  {
    var parts := Numbers(ks);
    var s := JoinWith(parts, ',');
    ListChars(ks);
    ListForm(s);
    if |ks| == 1 {
      assert s == Dec(ks[0]);
      DecPlain(ks[0]);
    } else {
      assert s[|parts[0]|] == ',';
    }
  }

  /** A list comprehension whose every element succeeds gives their values. */
  lemma {:induction false} ParseAllOf<T>(parts: seq<string>, item: string -> Option<T>, ks: seq<T>)
    requires |parts| == |ks| && forall i :: 0 <= i < |parts| ==> item(parts[i]) == Some(ks[i])
    ensures ParseAll(parts, item) == Some(ks)
  {
    if parts != [] {
      assert forall i :: 0 <= i < |parts| - 1 ==> parts[1..][i] == parts[i + 1] && ks[1..][i] == ks[i + 1];
      ParseAllOf(parts[1..], item, ks[1..]);
      assert ks == [ks[0]] + ks[1..];
    }
  }

  /** A decimal numeral holds no separator. */
  lemma DecPlain(k: nat)
    ensures ',' !in Dec(k) && '-' !in Dec(k)
  {
    var s := Dec(k);
    assert forall i :: 0 <= i < |s| ==> s[i] != ',' && s[i] != '-';
  }

  /** Reading the comma list of the numbers `ks` gives `ks` back. */
  lemma ListItems(ks: seq<nat>)
    requires |ks| > 1
    ensures ParseAll(Split(JoinWith(Numbers(ks), ','), ','), Item) == Some(ks)
  {
    var parts := Numbers(ks);
    forall i | 0 <= i < |parts|
      ensures ',' !in parts[i] && Item(parts[i]) == Some(ks[i])
    {
      DecPlain(ks[i]);
      ItemDec(ks[i]);
    }
    SplitJoinWith(parts, ',');
    ParseAllOf(parts, Item, ks);
  }

  /**
   * A comma list of on-screen numbers (a single number being the list of
   * one) selects their projects in the order typed, duplicates kept, when
   * every number is listed; otherwise it is refused as a selection.
   */
  lemma ListRoundTrip(ks: seq<nat>, n: nat)
    requires |ks| > 0
    ensures var r := ParseSelection(JoinWith(Numbers(ks), ','), n);
            if AllListed(ks, n) then
              r.Chosen? && |r.indices| == |ks| && forall i :: 0 <= i < |ks| ==> r.indices[i] == ks[i] - 1
            else r == Rejected(InvalidSelection)
  {
    var s := JoinWith(Numbers(ks), ',');
    ListText(ks);
    if |ks| == 1 {
      assert ParseSelection(s, n) == SingleChoice(s, n);
      assert s == Dec(ks[0]);
      ParseIntDec(ks[0]);
    } else {
      assert ParseSelection(s, n) == ListChoice(s, n);
      ListItems(ks);
    }
  }

  /** A digit, a sign, whitespace or a comma. */
  predicate SelectionChar(c: char) {
    IsDigit(c) || IsSpace(c) || c == '+' || c == '-' || c == ','
  }

  /** Every character is a digit, a sign, whitespace or a comma. */
  predicate SelectionText(s: string) {
    forall k :: 0 <= k < |s| ==> SelectionChar(s[k])
  }

  /** Every character of an integer read by `int(x.strip())` is a digit, a sign or whitespace. */
  lemma ItemChars(x: string)
    requires Item(x).Some?
    ensures SelectionText(x)
  {
    ParseIntStrip(x);
    forall k | 0 <= k < |x|
      ensures SelectionChar(x[k])
    {
      ParseIntChars(x, k);
    }
  }

  /** Every character of an integer read by `int()` is a digit, a sign or whitespace. */
  lemma NumberChars(x: string)
    requires ParseInt(x).Some?
    ensures SelectionText(x)
  {
    forall k | 0 <= k < |x|
      ensures SelectionChar(x[k])
    {
      ParseIntChars(x, k);
    }
  }

  /** Pieces made of selection characters, joined by one, give selection characters only. */
  lemma SplitChars(c: string, sep: char)
    requires SelectionChar(sep)
    requires forall i :: 0 <= i < |Split(c, sep)| ==> SelectionText(Split(c, sep)[i])
    ensures SelectionText(c)
  {
    var parts := Split(c, sep);
    forall i, k | 0 <= i < |parts| && 0 <= k < |parts[i]|
      ensures SelectionChar(parts[i][k])
    {
      assert SelectionText(parts[i]);
    }
    JoinWithChars(parts, sep, SelectionChar);
  }

  lemma RangeChars(c: string, n: nat)
    requires RangeChoice(c, n).Chosen?
    ensures SelectionText(c)
  {
    var parts := Split(c, '-');
    assert |parts| == 2;
    assert RangeChoice(c, n) == RangeOf(ParseInt(parts[0]), ParseInt(parts[1]), n);
    NumberChars(parts[0]);
    NumberChars(parts[1]);
    PairChars(parts[0], parts[1], c);
  }

  /** Two pieces around a dash. */
  lemma PairChars(p: string, q: string, c: string)
    requires c == JoinWith([p, q], '-')
    requires SelectionText(p) && SelectionText(q)
    ensures SelectionText(c)
  {
    assert [p, q][1..] == [q];
    assert c == p + ['-'] + q;
    forall k | 0 <= k < |c|
      ensures SelectionChar(c[k])
    {
      if k < |p| {
        assert c[k] == p[k];
      } else if k > |p| {
        assert c[k] == q[k - |p| - 1];
      }
    }
  }

  lemma ListChoiceChars(c: string, n: nat)
    requires ListChoice(c, n).Chosen?
    ensures SelectionText(c)
  {
    var parts := Split(c, ',');
    ParseAllItems(parts, Item);
    forall i | 0 <= i < |parts|
      ensures SelectionText(parts[i])
    {
      ItemChars(parts[i]);
    }
    SplitChars(c, ',');
  }

  /** Apart from `all`, an accepted answer is made only of digits, signs, whitespace and commas. */
  lemma AcceptedChars(input: string, n: nat)
    requires ParseSelection(input, n).Chosen?
    ensures var c := Canonical(input);
            c == "all" || forall k :: 0 <= k < |c| ==> SelectionChar(c[k])
  {
    var c := Canonical(input);
    if c == "all" {
    } else if '-' in c && ',' !in c {
      RangeChars(c, n);
    } else if ',' in c {
      ListChoiceChars(c, n);
    } else {
      NumberChars(c);
    }
  }

  // ---------------------------------------------------------------------------
  // The company prompt

  datatype Pick = Picked(index: nat) | Refused(reason: Rejection)

  /**
   * `select_company`'s check: `int(choice) - 1` must be a position in the list.
   * Unlike the project prompt, the answer is neither stripped nor lower-cased
   * first, which `int()` does not need.
   */
  function SelectCompany(choice: string, n: nat): (r: Pick)
    ensures r.Picked? <==> (ParseInt(choice).Some? && 1 <= ParseInt(choice).value <= n)
    ensures r.Picked? ==> r.index < n && ParseInt(choice) == Some(r.index + 1)
    ensures r.Refused? ==> (r.reason == InvalidInput <==> ParseInt(choice).None?)
  {
    PickNumber(ParseInt(choice), n)
  }

  /** The check on the number `int()` read, or the ValueError. */
  function PickNumber(number: Option<int>, n: nat): (r: Pick) {
    match number
    case None => Refused(InvalidInput)
    case Some(k) => if 1 <= k <= n then Picked(k - 1) else Refused(InvalidSelection)
  }

  /** `int()` reads an answer exactly as it reads the answer's canonical form. */
  lemma ParseIntCanonical(choice: string)
    ensures ParseInt(Canonical(choice)) == ParseInt(choice)
  {
    ParseIntLower(Strip(choice));
    ParseIntStrip(choice);
  }

  /** A company pick as a project selection: one position, or the same refusal. */
  function AsChoice(p: Pick): Choice {
    match p
    case Picked(i) => Chosen([i])
    case Refused(why) => Rejected(why)
  }

  /**
   * A plain number means the same at both prompts: the company prompt picks
   * exactly the position the project prompt would select alone, and refuses
   * with the same message.
   */
  lemma CompanyMatchesSingle(choice: string, n: nat)
    requires var c := Canonical(choice); c != "all" && '-' !in c && ',' !in c
    ensures ParseSelection(choice, n) == AsChoice(SelectCompany(choice, n))
  {
    var c := Canonical(choice);
    assert ParseSelection(choice, n) == SingleChoice(c, n);
    ParseIntCanonical(choice);
    NumberIsPick(ParseInt(choice), n);
  }

  /** The single-number form of the project prompt applies the company prompt's check. */
  lemma NumberIsPick(number: Option<int>, n: nat)
    ensures NumberChoice(number, n) == AsChoice(PickNumber(number, n))
  {
  }

  /**
   * The prompts part ways on a negative number: the company prompt reads
   * `-k` as a number outside the list, the project prompt as a range with an
   * empty start, which `int()` refuses.
   */
  lemma NegativeNumberDiffers(k: nat, n: nat)
    ensures SelectCompany("-" + Dec(k), n) == Refused(InvalidSelection)
    ensures ParseSelection("-" + Dec(k), n) == Rejected(InvalidInput)
  {
    var s := "-" + Dec(k);
    NegativeText(k);
    NegativeValue(k);
    assert ParseSelection(s, n) == RangeChoice(s, n);
    ParseIntEmpty();
    assert RangeChoice(s, n) == RangeOf(None, ParseInt(Dec(k)), n);
  }

  /** How `-k` reads: already canonical, a dash and no comma, and an empty piece before the dash. */
  lemma NegativeText(k: nat)
    ensures var s := "-" + Dec(k);
            Canonical(s) == s && s != "all" && '-' in s && ',' !in s &&
            Split(s, '-') == ["", Dec(k)]
  {
    var d := Dec(k);
    var s := "-" + d;
    var parts := ["", d];
    assert JoinWith(parts, '-') == s;
    DecPlain(k);
    assert forall i :: 0 <= i < |s| ==> RangeChar(s[i]) by {
      JoinWithChars(parts, '-', RangeChar);
    }
    assert Canonical(s) == s by {
      NumeralCanonical(s);
    }
    assert s[0] == '-';
    assert s[1..] == d;
    assert Split(s, '-') == parts by {
      SplitJoinWith(parts, '-');
    }
  }

  /** `int("-k") == -k`. */
  lemma NegativeValue(k: nat)
    ensures ParseInt("-" + Dec(k)) == Some(-(k as int))
  {
    var d := Dec(k);
    var s := "-" + d;
    assert s[0] == '-' && s[1..] == d;
    assert Strip(s) == s by {
      assert s[|s| - 1] == d[|d| - 1];
      StripTrimmed(s);
    }
    assert ParseSigned(s) == Some(-(k as int));
  }
}
