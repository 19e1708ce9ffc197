/**
  Sets of integers over a fixed range, stored as one presence flag per number,
  together with the parsers for the command-line range ("start-end") and the
  operation keyword, the loader that fills a set from a list of numbers and
  the writer that lists a set's members.
*/
module IntSet {
  import opened Wrappers

  // ---------------------------------------------------------------------
  // The bit-vector set
  // ---------------------------------------------------------------------

  /**
    A set over the universe `rangeStart..rangeEnd`.  Slot `n - rangeStart` of
    `bits` says whether `n` is present.  The range is fixed when the set is
    made: it is read from the program's range settings at construction.
  */
  class BitSet {
    const rangeStart: int
    const rangeEnd: int
    var bits: seq<bool>
    var len: int

    ghost predicate Valid()
      reads this
    {
      len == rangeEnd - rangeStart + 1 && |bits| == (if len > 0 then len else 0)
    }

    /** Whether the slot of `n` is set. */
    ghost predicate Present(n: int)
      reads this
      requires Valid() && rangeStart <= n <= rangeEnd
    {
      bits[n - rangeStart]
    }

    /** The numbers present in the set. */
    ghost function Elements(): set<int>
      reads this
      requires Valid()
    {
      set n | rangeStart <= n <= rangeEnd && Present(n)
    }

    /** A set with `rangeEnd - rangeStart + 1` slots, all absent. */
    constructor (rangeStart: int, rangeEnd: int)
      ensures this.rangeStart == rangeStart && this.rangeEnd == rangeEnd
      ensures Valid() && Elements() == {}
      ensures forall k :: 0 <= k < |bits| ==> !bits[k]
    {
      this.rangeStart := rangeStart;
      this.rangeEnd := rangeEnd;
      len := rangeEnd - rangeStart + 1;
      bits := [];
      new;
      var i := 0;
      while i < len
        invariant len == rangeEnd - rangeStart + 1
        invariant 0 <= i && (i <= len || i == 0)
        invariant |bits| == i && forall k :: 0 <= k < i ==> !bits[k]
      {
        bits := bits + [false];
        i := i + 1;
      }
      assert forall n :: n !in Elements();
    }

    /** Whether `n` is present. */
    function Contains(n: int): (b: bool)
      reads this
      requires Valid() && rangeStart <= n <= rangeEnd
      ensures b <==> n in Elements()
    {
      bits[n - rangeStart]
    }

    /** Adds `n`; tells whether it was absent before. */
    method Add(n: int) returns (added: bool)
      requires Valid() && rangeStart <= n <= rangeEnd
      modifies this`bits
      ensures Valid()
      ensures added <==> n !in old(Elements())
      ensures !added ==> bits == old(bits)
      ensures Elements() == old(Elements()) + {n}
      ensures bits == old(bits)[n - rangeStart := true]
    {
      if Contains(n) {
        assert bits == bits[n - rangeStart := true];
        return false;
      }
      bits := bits[n - rangeStart := !bits[n - rangeStart]];
      added := true;
    }

    /** The numbers of the range that are in this set or in `b`. */
    method Union(b: BitSet) returns (c: BitSet)
      requires Valid() && b.Valid()
      requires b.rangeStart == rangeStart && b.rangeEnd == rangeEnd
      ensures fresh(c) && c.Valid()
      ensures c.rangeStart == rangeStart && c.rangeEnd == rangeEnd
      ensures forall n :: rangeStart <= n <= rangeEnd ==> (c.Contains(n) <==> Contains(n) || b.Contains(n))
      ensures c.Elements() == Elements() + b.Elements()
    {
      c := new BitSet(rangeStart, rangeEnd);
      var i := rangeStart;
      while i <= rangeEnd
        invariant rangeStart <= i <= rangeEnd + 1 || (i == rangeStart && rangeEnd < rangeStart)
        invariant fresh(c) && c.Valid()
        invariant c.rangeStart == rangeStart && c.rangeEnd == rangeEnd
        invariant forall k :: 0 <= k < |c.bits| ==>
          (c.bits[k] <==> k < i - rangeStart && (b.bits[k] || bits[k]))
      {
        if b.Contains(i) || Contains(i) {
          var _ := c.Add(i);
        }
        i := i + 1;
      }
    }

    /** The numbers of the range that are in both this set and `b`. */
    method Intersection(b: BitSet) returns (c: BitSet)
      requires Valid() && b.Valid()
      requires b.rangeStart == rangeStart && b.rangeEnd == rangeEnd
      ensures fresh(c) && c.Valid()
      ensures c.rangeStart == rangeStart && c.rangeEnd == rangeEnd
      ensures forall n :: rangeStart <= n <= rangeEnd ==> (c.Contains(n) <==> Contains(n) && b.Contains(n))
      ensures c.Elements() == Elements() * b.Elements()
    {
      c := new BitSet(rangeStart, rangeEnd);
      var i := rangeStart;
      while i <= rangeEnd
        invariant rangeStart <= i <= rangeEnd + 1 || (i == rangeStart && rangeEnd < rangeStart)
        invariant fresh(c) && c.Valid()
        invariant c.rangeStart == rangeStart && c.rangeEnd == rangeEnd
        invariant forall k :: 0 <= k < |c.bits| ==>
          (c.bits[k] <==> k < i - rangeStart && b.bits[k] && bits[k])
      {
        if b.Contains(i) && Contains(i) {
          var _ := c.Add(i);
        }
        i := i + 1;
      }
    }

    /** The numbers of the range that are in this set and not in `b`. */
    method Difference(b: BitSet) returns (c: BitSet)
      requires Valid() && b.Valid()
      requires b.rangeStart == rangeStart && b.rangeEnd == rangeEnd
      ensures fresh(c) && c.Valid()
      ensures c.rangeStart == rangeStart && c.rangeEnd == rangeEnd
      ensures forall n :: rangeStart <= n <= rangeEnd ==> (c.Contains(n) <==> Contains(n) && !b.Contains(n))
      ensures c.Elements() == Elements() - b.Elements()
    {
      c := new BitSet(rangeStart, rangeEnd);
      var i := rangeStart;
      while i <= rangeEnd
        invariant rangeStart <= i <= rangeEnd + 1 || (i == rangeStart && rangeEnd < rangeStart)
        invariant fresh(c) && c.Valid()
        invariant c.rangeStart == rangeStart && c.rangeEnd == rangeEnd
        invariant forall k :: 0 <= k < |c.bits| ==>
          (c.bits[k] <==> k < i - rangeStart && bits[k] && !b.bits[k])
      {
        if Contains(i) && !b.Contains(i) {
          var _ := c.Add(i);
        }
        i := i + 1;
      }
    }

    /** The numbers of the range that are in exactly one of this set and `b`. */
    method SymmetricDifference(b: BitSet) returns (c: BitSet)
      requires Valid() && b.Valid()
      requires b.rangeStart == rangeStart && b.rangeEnd == rangeEnd
      ensures fresh(c) && c.Valid()
      ensures c.rangeStart == rangeStart && c.rangeEnd == rangeEnd
      ensures forall n :: rangeStart <= n <= rangeEnd ==> (c.Contains(n) <==> Contains(n) != b.Contains(n))
      ensures c.Elements() == (Elements() - b.Elements()) + (b.Elements() - Elements())
    {
      var left := Difference(b);
      var right := b.Difference(this);
      c := left.Union(right);
    }
  }

  /** The operation codes: 1 union, 2 intersection, 3 difference, anything else symmetric difference. */
  function Combine(operation: int, a: set<int>, b: set<int>): set<int> {
    if operation == 1 then a + b
    else if operation == 2 then a * b
    else if operation == 3 then a - b
    else (a - b) + (b - a)
  }

  /** Applies the operation selected by `operation` to `a` and `b`. */
  method SetOperation(operation: int, a: BitSet, b: BitSet) returns (c: BitSet)
    requires a.Valid() && b.Valid()
    requires b.rangeStart == a.rangeStart && b.rangeEnd == a.rangeEnd
    ensures fresh(c) && c.Valid()
    ensures c.rangeStart == a.rangeStart && c.rangeEnd == a.rangeEnd
    ensures c.Elements() == Combine(operation, a.Elements(), b.Elements())
  {
    if operation == 1 {
      c := a.Union(b);
    } else if operation == 2 {
      c := a.Intersection(b);
    } else if operation == 3 {
      c := a.Difference(b);
    } else {
      c := a.SymmetricDifference(b);
    }
  }

  /** The symmetric difference does not depend on the order of its operands. */
  lemma CombineSymmetric(a: set<int>, b: set<int>)
    ensures Combine(4, a, b) == Combine(4, b, a)
    ensures forall x :: x in Combine(4, a, b) <==> (x in a) != (x in b)
  {
  }

  // ---------------------------------------------------------------------
  // Loading and listing a set
  // ---------------------------------------------------------------------

  datatype LoadError = OutOfRange(n: int) | Duplicate(n: int)

  /** The first problem met when adding `numbers` in order to a set holding `present`. */
  function LoadProblem(present: set<int>, numbers: seq<int>, lo: int, hi: int): Option<LoadError>
    decreases |numbers|
  {
    if numbers == [] then None
    else
      var n := numbers[0];
      if n < lo || n > hi then Some(OutOfRange(n))
      else if n in present then Some(Duplicate(n))
      else LoadProblem(present + {n}, numbers[1..], lo, hi)
  }

  /**
    Loading succeeds exactly when every number lies in the range, none is
    already present and none occurs twice.
  */
  lemma {:induction false} LoadSucceedsIff(present: set<int>, numbers: seq<int>, lo: int, hi: int)
    ensures LoadProblem(present, numbers, lo, hi) == None <==>
      && (forall i :: 0 <= i < |numbers| ==> lo <= numbers[i] <= hi && numbers[i] !in present)
      && (forall i, j :: 0 <= i < j < |numbers| ==> numbers[i] != numbers[j])
    decreases |numbers|
  {
    if numbers != [] {
      var n := numbers[0];
      var rest := numbers[1..];
      LoadSucceedsIff(present + {n}, rest, lo, hi);
      if LoadProblem(present, numbers, lo, hi) == None {
        forall i, j | 0 <= i < j < |numbers| ensures numbers[i] != numbers[j] {
          if i > 0 {
            assert numbers[i] == rest[i - 1] && numbers[j] == rest[j - 1];
          } else {
            assert numbers[j] == rest[j - 1];
          }
        }
      } else if lo <= n <= hi && n !in present {
        assert !(forall i :: 0 <= i < |rest| ==> lo <= rest[i] <= hi && rest[i] !in present + {n})
            || !(forall i, j :: 0 <= i < j < |rest| ==> rest[i] != rest[j]);
        if !(forall i :: 0 <= i < |rest| ==> lo <= rest[i] <= hi && rest[i] !in present + {n}) {
          var i :| 0 <= i < |rest| && !(lo <= rest[i] <= hi && rest[i] !in present + {n});
          assert numbers[i + 1] == rest[i];
        } else {
          var i, j :| 0 <= i < j < |rest| && rest[i] == rest[j];
          assert numbers[i + 1] == rest[i] && numbers[j + 1] == rest[j];
        }
      }
    }
  }

  /**
    Adds the numbers read from an input file to `s`, in order; stops at the
    first number outside the range or already present.
  */
  method CreateSet(numbers: seq<int>, s: BitSet) returns (problem: Option<LoadError>)
    requires s.Valid()
    modifies s`bits
    ensures s.Valid()
    ensures problem == LoadProblem(old(s.Elements()), numbers, s.rangeStart, s.rangeEnd)
    ensures problem == None ==> s.Elements() == old(s.Elements()) + set n | n in numbers
  {
    var i := 0;
    while i < |numbers|
      invariant 0 <= i <= |numbers| && s.Valid()
      invariant LoadProblem(s.Elements(), numbers[i..], s.rangeStart, s.rangeEnd) ==
        LoadProblem(old(s.Elements()), numbers, s.rangeStart, s.rangeEnd)
      invariant s.Elements() == old(s.Elements()) + set n | n in numbers[..i]
    {
      var n := numbers[i];
      assert numbers[i..][0] == n && numbers[i..][1..] == numbers[i + 1..];
      assert numbers[..i + 1] == numbers[..i] + [n];
      if n < s.rangeStart || n > s.rangeEnd {
        return Some(OutOfRange(n));
      }
      var added := s.Add(n);
      if !added {
        return Some(Duplicate(n));
      }
      i := i + 1;
    }
    assert numbers[i..] == [];
    assert numbers[..i] == numbers;
    problem := None;
  }

  /** The members of `s` in the order the output file lists them. */
  method WriteSet(s: BitSet) returns (out: seq<int>)
    requires s.Valid()
    ensures forall i, j :: 0 <= i < j < |out| ==> out[i] < out[j]
    ensures forall n :: n in out <==> n in s.Elements()
  {
    out := [];
    var i := s.rangeStart;
    while i <= s.rangeEnd
      invariant s.rangeStart <= i <= s.rangeEnd + 1 || (i == s.rangeStart && s.rangeEnd < s.rangeStart)
      invariant forall k, j :: 0 <= k < j < |out| ==> out[k] < out[j]
      invariant forall k :: 0 <= k < |out| ==> out[k] < i
      invariant forall n :: n in out <==> n in s.Elements() && n < i
    {
      if s.Contains(i) {
        out := out + [i];
      }
      i := i + 1;
    }
  }

  // ---------------------------------------------------------------------
  // Parsing the range argument
  // ---------------------------------------------------------------------

  datatype Range = Range(first: int, last: int)

  predicate IsDigit(c: char) {
    '0' <= c <= '9'
  }

  predicate AllDigits(s: string) {
    forall i :: 0 <= i < |s| ==> IsDigit(s[i])
  }

  /** The decimal value of a digit string, read left to right; the empty string is 0. */
  function Value(s: string): nat
    requires AllDigits(s)
  {
    if s == [] then 0 else Value(s[..|s| - 1]) * 10 + (s[|s| - 1] as int - '0' as int)
  }

  /** The index of the first '-' in `s`, or `|s|` when there is none. */
  function FirstDash(s: string): (k: nat)
    ensures k <= |s| && (k < |s| ==> s[k] == '-')
    ensures forall j :: 0 <= j < k ==> s[j] != '-'
  {
    if s == [] then 0 else if s[0] == '-' then 0 else 1 + FirstDash(s[1..])
  }

  /**
    What the range parser makes of `s`, as the code is written: the digits
    before the first '-' give the start, the digits after it the end; a
    leading '-', a non-digit, a '-' at the very end or an end below the start
    is rejected.  Without any '-' the end stays 0.
  */
  function RangeOf(s: string): Option<Range> {
    var k := FirstDash(s);
    if 0 < |s| && s[0] == '-' then None
    else if !AllDigits(s[..k]) then None
    else if k + 1 == |s| then None
    else if k + 1 < |s| && !AllDigits(s[k + 1..]) then None
    else
      var first := Value(s[..k]);
      var last := if k + 1 < |s| then Value(s[k + 1..]) else 0;
      if last < first then None else Some(Range(first, last))
  }

  /**
    Parses the range argument; `None` stands for the "Invalid range" exit.
    Both bounds start at 0 and accumulate the digits read.
  */
  method ParseRange(range: string) returns (r: Option<Range>)
    ensures r == RangeOf(range)
  {
    var len := |range|;
    var i := 0;
    var rangeStart, rangeEnd := 0, 0;
    if len > 0 && range[0] == '-' {
      return None;
    }
    while i < len && range[i] != '-'
      invariant 0 <= i <= len
      invariant forall j :: 0 <= j < i ==> range[j] != '-' && IsDigit(range[j])
      invariant rangeStart == Value(range[..i])
    {
      if !IsDigit(range[i]) {
        assert i == FirstDash(range) || i < FirstDash(range);
        return None;
      }
      assert range[..i + 1][..i] == range[..i];
      rangeStart := rangeStart * 10 + (range[i] as int - '0' as int);
      i := i + 1;
    }
    var dash := i;
    assert dash == FirstDash(range);
    i := i + 1;
    if i == len {
      return None;
    }
    while i < len
      invariant dash < len ==> dash + 1 <= i <= len
      invariant dash < len ==> forall j :: dash + 1 <= j < i ==> IsDigit(range[j])
      invariant dash < len ==> rangeEnd == Value(range[dash + 1..i])
      invariant dash == len ==> i == len + 1 && rangeEnd == 0
    {
      if !IsDigit(range[i]) {
        assert !AllDigits(range[dash + 1..]) by {
          assert range[dash + 1..][i - dash - 1] == range[i];
        }
        return None;
      }
      assert range[dash + 1..i + 1][..i - dash - 1] == range[dash + 1..i];
      rangeEnd := rangeEnd * 10 + (range[i] as int - '0' as int);
      i := i + 1;
    }
    if dash + 1 < len {
      assert range[dash + 1..i] == range[dash + 1..];
    }
    if rangeEnd < rangeStart {
      return None;
    }
    return Some(Range(rangeStart, rangeEnd));
  }

  /** The shortest decimal text of `n`. */
  function Decimal(n: nat): (s: string)
    ensures |s| > 0 && AllDigits(s)
  {
    if n < 10 then [('0' as int + n) as char] else Decimal(n / 10) + [('0' as int + n % 10) as char]
  }

  lemma {:induction false} DecimalValue(n: nat)
    ensures Value(Decimal(n)) == n
  {
    var s := Decimal(n);
    if n >= 10 {
      DecimalValue(n / 10);
      assert s[..|s| - 1] == Decimal(n / 10);
    }
  }

  lemma {:induction false} FirstDashAfterDigits(x: string, y: string)
    requires AllDigits(x)
    ensures FirstDash(x + "-" + y) == |x|
    decreases |x|
  {
    if x != [] {
      assert (x + "-" + y)[1..] == x[1..] + "-" + y;
      FirstDashAfterDigits(x[1..], y);
    }
  }

  /**
    "a-b" with non-empty digit strings a and b parses to the range of their
    values, unless the end is below the start.
  */
  lemma DigitsDashDigits(x: string, y: string)
    requires AllDigits(x) && AllDigits(y) && |x| > 0 && |y| > 0
    ensures RangeOf(x + "-" + y) ==
      if Value(y) < Value(x) then None else Some(Range(Value(x), Value(y)))
  {
    var s := x + "-" + y;
    FirstDashAfterDigits(x, y);
    assert s[..|x|] == x;
    assert s[|x| + 1..] == y;
  }

  /** Printing two numbers as "a-b" and parsing the text gives them back. */
  lemma RangeRoundTrip(a: nat, b: nat)
    requires a <= b
    ensures RangeOf(Decimal(a) + "-" + Decimal(b)) == Some(Range(a, b))
  {
    DecimalValue(a);
    DecimalValue(b);
    DigitsDashDigits(Decimal(a), Decimal(b));
  }

  /** The rejected forms: a leading '-', a trailing '-', and an end below the start. */
  lemma RangeRejections(x: string, y: string)
    requires AllDigits(x) && AllDigits(y) && |x| > 0 && |y| > 0
    ensures RangeOf("-" + x) == None
    ensures RangeOf(x + "-") == None
    ensures Value(y) < Value(x) ==> RangeOf(x + "-" + y) == None
  {
    FirstDashAfterDigits(x, "");
    assert x + "-" + "" == x + "-";
    assert (x + "-")[..|x|] == x;
    DigitsDashDigits(x, y);
  }

  /** A character that is neither a digit nor '-' anywhere in the text makes it invalid. */
  lemma {:induction false} StrayCharacterRejected(s: string, i: nat)
    requires i < |s| && !IsDigit(s[i]) && s[i] != '-'
    ensures RangeOf(s) == None
  {
    var k := FirstDash(s);
    if i < k {
      assert s[..k][i] == s[i];
    } else if k + 1 < |s| {
      assert s[k + 1..][i - k - 1] == s[i];
    }
  }

  /** As written, a range with no '-' at all is accepted when its digits are all zeros. */
  lemma RangeWithoutDash()
    ensures RangeOf("0") == Some(Range(0, 0))
    ensures RangeOf("") == Some(Range(0, 0))
    ensures RangeOf("7") == None
  {
    assert FirstDash("0") == 1;
    assert "0"[..1] == "0";
    assert Value("0"[..0]) == 0;
    assert FirstDash("7") == 1;
    assert "7"[..1] == "7";
    assert Value("7"[..0]) == 0;
  }

  /** The range parser as intended: one '-' must separate the start from the end. */
  function StrictRangeOf(s: string): Option<Range> {
    if FirstDash(s) == |s| then None else RangeOf(s)
  }

  /**
    The intended parser accepts exactly the texts "a-b" with non-empty digit
    strings a and b whose values are in order.
  */
  lemma StrictRangeIff(s: string, r: Range)
    ensures StrictRangeOf(s) == Some(r) <==>
      exists x, y :: AllDigits(x) && AllDigits(y) && |x| > 0 && |y| > 0 && s == x + "-" + y &&
        r == Range(Value(x), Value(y)) && Value(x) <= Value(y)
  {
    if StrictRangeOf(s) == Some(r) {
      var k := FirstDash(s);
      var x, y := s[..k], s[k + 1..];
      assert s == x + "-" + y;
      assert AllDigits(x) && AllDigits(y) && |x| > 0 && |y| > 0;
    }
    if exists x, y :: AllDigits(x) && AllDigits(y) && |x| > 0 && |y| > 0 && s == x + "-" + y &&
        r == Range(Value(x), Value(y)) && Value(x) <= Value(y)
    {
      var x, y :| AllDigits(x) && AllDigits(y) && |x| > 0 && |y| > 0 && s == x + "-" + y &&
        r == Range(Value(x), Value(y)) && Value(x) <= Value(y);
      DigitsDashDigits(x, y);
      FirstDashAfterDigits(x, y);
    }
  }

  // ---------------------------------------------------------------------
  // Parsing the operation argument
  // ---------------------------------------------------------------------

  /** `c` with bit 5 of its code point flipped, i.e. `c ^ ' '`. */
  function Toggle(c: char): (r: char)
    ensures (r as int) / 64 == (c as int) / 64
    ensures (r as int) % 64 == ((c as int) % 64 + 32) % 64
  {
    var v := c as int;
    if v % 64 >= 32 then (v - 32) as char else (v + 32) as char
  }

  lemma ToggleInvolution(c: char)
    ensures Toggle(Toggle(c)) == c
  {
  }

  /** The case folding applied to each character: all but 'a'..'z' and '_' are toggled. */
  function Fold(c: char): (r: char)
    ensures 'A' <= c <= 'Z' ==> r as int == c as int + 32
    ensures ('a' <= c <= 'z' || c == '_') ==> r == c
  {
    if !('a' <= c <= 'z') && c != '_' then Toggle(c) else c
  }

  function FoldCase(s: string): (r: string)
    ensures |r| == |s|
  {
    seq(|s|, i requires 0 <= i < |s| => Fold(s[i]))
  }

  /** The C string a character buffer holds: everything before the first NUL. */
  function CString(s: string): string {
    if s == [] || s[0] == '\0' then [] else [s[0]] + CString(s[1..])
  }

  /** The code of an operation keyword. */
  function OperationCode(s: string): (code: Option<int>)
    ensures code.Some? ==> 1 <= code.value <= 4
  {
    if s == "union" then Some(1)
    else if s == "intersection" then Some(2)
    else if s == "difference" then Some(3)
    else if s == "sym_difference" then Some(4)
    else None
  }

  /**
    Folds the case of the argument in place and looks the result up;
    `None` stands for the "Invalid Operation" exit.
  */
  method ParseOperation(op: array<char>) returns (code: Option<int>)
    requires forall i :: 0 <= i < op.Length ==> op[i] != '\0'
    modifies op
    ensures op[..] == FoldCase(old(op[..]))
    ensures code == OperationCode(CString(op[..]))
  {
    var len := op.Length;
    for i := 0 to len
      invariant forall k :: 0 <= k < i ==> op[k] == Fold(old(op[k]))
      invariant forall k :: i <= k < len ==> op[k] == old(op[k])
    {
      if !('a' <= op[i] <= 'z') && op[i] != '_' {
        op[i] := Toggle(op[i]);
      }
    }
    var text := CString(op[..]);
    if text == "union" {
      code := Some(1);
    } else if text == "intersection" {
      code := Some(2);
    } else if text == "difference" {
      code := Some(3);
    } else if text == "sym_difference" {
      code := Some(4);
    } else {
      code := None;
    }
  }

  predicate IsKeyword(w: string) {
    w == "union" || w == "intersection" || w == "difference" || w == "sym_difference"
  }

  /** A keyword character ('a'..'z' or '_') is the fold of exactly itself and its toggled form. */
  lemma FoldPreimage(c: char, w: char)
    requires 'a' <= w <= 'z' || w == '_'
    ensures Fold(c) == w <==> c == w || c == Toggle(w)
  {
    if c == Toggle(w) {
      ToggleInvolution(w);
    }
    if Fold(c) == w && c != w {
      ToggleInvolution(c);
    }
  }

  lemma {:induction false} CStringWithoutNul(s: string)
    requires forall i :: 0 <= i < |s| ==> s[i] != '\0'
    ensures CString(s) == s
    decreases |s|
  {
    if s != [] {
      CStringWithoutNul(s[1..]);
    }
  }

  /**
    An argument of a keyword's length is accepted as that keyword exactly when
    each of its characters is the keyword's character or its toggled form:
    upper- and lower-case letters are accepted alike.
  */
  lemma CaseVariantAccepted(s: string, w: string)
    requires IsKeyword(w) && |s| == |w|
    ensures FoldCase(s) == w <==> forall i :: 0 <= i < |s| ==> s[i] == w[i] || s[i] == Toggle(w[i])
    ensures FoldCase(s) == w ==> OperationCode(CString(FoldCase(s))) == OperationCode(w) != None
  {
    forall i | 0 <= i < |s| ensures Fold(s[i]) == w[i] <==> s[i] == w[i] || s[i] == Toggle(w[i]) {
      FoldPreimage(s[i], w[i]);
    }
    if FoldCase(s) == w {
      CStringWithoutNul(w);
    }
  }

  /** Each keyword is made of 'a'..'z' and '_' only, so folding leaves it unchanged. */
  lemma KeywordFolded(w: string)
    requires IsKeyword(w)
    ensures FoldCase(w) == w
    ensures forall i :: 0 <= i < |w| ==> w[i] != '\0'
  {
    assert forall i :: 0 <= i < |w| ==> 'a' <= w[i] <= 'z' || w[i] == '_';
  }

  /** Upper-case spellings select the same operation. */
  lemma UpperCaseSpelling()
    ensures OperationCode(CString(FoldCase("UNION"))) == Some(1)
  {
    CaseVariantAccepted("UNION", "union");
  }

  lemma {:induction false} CStringStopsAtNul(s: string, t: string)
    requires forall i :: 0 <= i < |s| ==> s[i] != '\0'
    ensures CString(s + ['\0'] + t) == s
    decreases |s|
  {
    if s != [] {
      assert (s + ['\0'] + t)[1..] == s[1..] + ['\0'] + t;
      CStringStopsAtNul(s[1..], t);
    }
  }

  /**
    A space folds to NUL, so an argument made of a keyword, a space and any
    text selects that keyword's operation.
  */
  lemma SpaceEndsKeyword(w: string, t: string)
    requires IsKeyword(w)
    ensures OperationCode(CString(FoldCase(w + " " + t))) == OperationCode(w)
  {
    KeywordFolded(w);
    assert Fold(' ') == '\0';
    assert FoldCase(w + " " + t) == FoldCase(w) + ['\0'] + FoldCase(t);
    CStringStopsAtNul(w, FoldCase(t));
  }
}
