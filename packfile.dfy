/** The validation rules applied to the lines of a pack file. Reading the
    file and parsing text into an int happen before this model: each line
    arrives already classified. */
module PackFile {
  import opened Cards

  /** A trimmed line of the pack file. */
  datatype Line = Blank | Integer(value: int) | Malformed

  /** Why a pack is rejected; line numbers count every line from 1, blank
      ones included. */
  datatype PackError =
    | InvalidValue(line: nat)
    | NegativeValue(line: nat)
    | WrongSize(expected: int, found: nat)

  datatype Result<T> = Success(value: T) | Failure(error: PackError)

  /** A line that does not stop the scan. */
  predicate Acceptable(l: Line)
  {
    l.Blank? || (l.Integer? && l.value >= 0)
  }

  /** The error a rejected line at the given line number raises. */
  function LineError(l: Line, lineNumber: nat): (e: PackError)
  {
    if l.Malformed? then InvalidValue(lineNumber) else NegativeValue(lineNumber)
  }

  /** The integers the lines hold, in file order, blank and malformed lines
      dropped. */
  function Numbers(lines: seq<Line>): (vs: seq<int>)
  {
    if lines == [] then []
    else (if lines[0].Integer? then [lines[0].value] else []) + Numbers(lines[1..])
  }

  lemma {:induction false} NumbersAppend(a: seq<Line>, b: seq<Line>)
    ensures Numbers(a + b) == Numbers(a) + Numbers(b)
  {
    if a == [] {
      assert a + b == b;
    } else {
      var ab := a + b;
      var head := if a[0].Integer? then [a[0].value] else [];
      NumbersAppend(a[1..], b);
      assert ab[0] == a[0] && ab[1..] == a[1..] + b;
      calc {
        Numbers(ab);
        head + Numbers(a[1..] + b);
        head + (Numbers(a[1..]) + Numbers(b));
        (head + Numbers(a[1..])) + Numbers(b);
        Numbers(a) + Numbers(b);
      }
    }
  }

  /** Scans the lines in order, the first of them numbered `first`; stops at
      the first malformed or negative line and otherwise collects the values. */
  function Scan(lines: seq<Line>, first: nat): (r: Result<seq<int>>)
    ensures r.Success? <==> forall i :: 0 <= i < |lines| ==> Acceptable(lines[i])
    ensures r.Success? ==> r.value == Numbers(lines)
    ensures r.Failure? ==>
      exists k :: 0 <= k < |lines| && !Acceptable(lines[k])
        && (forall i :: 0 <= i < k ==> Acceptable(lines[i]))
        && r.error == LineError(lines[k], first + k)
  {
    if lines == [] then Success([])
    else
      var rest := Scan(lines[1..], first + 1);
      match lines[0]
      case Blank => rest
      case Malformed => Failure(InvalidValue(first))
      case Integer(v) =>
        if v < 0 then Failure(NegativeValue(first))
        else if rest.Failure? then rest
        else Success([v] + rest.value)
  }

  lemma {:induction false} NumbersNonNegative(lines: seq<Line>)
    requires forall i :: 0 <= i < |lines| ==> Acceptable(lines[i])
    ensures forall i :: 0 <= i < |Numbers(lines)| ==> Numbers(lines)[i] >= 0
  {
    if lines != [] {
      NumbersNonNegative(lines[1..]);
    }
  }

  /** The validation of loadPack: all lines are scanned from line 1, then the
      number of values must be exactly CardsPerPlayer * n. */
  function LoadPack(lines: seq<Line>, n: int): (r: Result<seq<int>>)
    ensures r.Success? <==>
      (forall i :: 0 <= i < |lines| ==> Acceptable(lines[i])) && |Numbers(lines)| == CardsPerPlayer * n
    ensures r.Success? ==> r.value == Numbers(lines) && forall i :: 0 <= i < |r.value| ==> r.value[i] >= 0
    ensures r.Failure? && r.error.WrongSize? ==>
      (forall i :: 0 <= i < |lines| ==> Acceptable(lines[i]))
        && r.error == WrongSize(CardsPerPlayer * n, |Numbers(lines)|)
    ensures r.Failure? && !r.error.WrongSize? ==>
      exists k :: 0 <= k < |lines| && !Acceptable(lines[k])
        && (forall i :: 0 <= i < k ==> Acceptable(lines[i]))
        && r.error == LineError(lines[k], 1 + k)
  {
    match Scan(lines, 1)
    case Failure(e) => Failure(e)
    case Success(values) =>
      NumbersNonNegative(lines);
      if |values| != CardsPerPlayer * n then Failure(WrongSize(CardsPerPlayer * n, |values|))
      else Success(values)
  }

  lemma {:induction false} NumbersOfIntegers(lines: seq<Line>)
    requires forall i :: 0 <= i < |lines| ==> lines[i].Integer?
    ensures |Numbers(lines)| == |lines|
    ensures forall i :: 0 <= i < |lines| ==> Numbers(lines)[i] == lines[i].value
  {
    if lines != [] {
      NumbersOfIntegers(lines[1..]);
    }
  }

  /** The pack 1, 2, ..., 16 for two players loads as those sixteen values. */
  lemma LoadPackValid()
    ensures LoadPack(seq(16, i => Integer(i + 1)), 2) == Success(seq(16, i => i + 1))
  {
    var lines := seq(16, i => Integer(i + 1));
    NumbersOfIntegers(lines);
    assert Numbers(lines) == seq(16, i => i + 1);
  }

  /** The same pack with -3 on line 3 is rejected at line 3. */
  lemma LoadPackNegative()
    ensures LoadPack(seq(16, i => Integer(if i == 2 then -3 else i + 1)), 2) == Failure(NegativeValue(3))
  {
    var lines := seq(16, i => Integer(if i == 2 then -3 else i + 1));
    assert !Acceptable(lines[2]);
    assert Acceptable(lines[0]) && Acceptable(lines[1]);
  }

  /** Ten values are not the sixteen two players need. */
  lemma LoadPackWrongSize()
    ensures LoadPack(seq(10, i => Integer(i + 1)), 2) == Failure(WrongSize(16, 10))
  {
    var lines := seq(10, i => Integer(i + 1));
    NumbersOfIntegers(lines);
    assert forall i :: 0 <= i < |lines| ==> Acceptable(lines[i]);
  }

  /** A blank line anywhere changes neither whether the pack is accepted nor
      the values it yields. */
  lemma BlankLineSkipped(a: seq<Line>, b: seq<Line>, n: int)
    ensures LoadPack(a + [Blank] + b, n).Success? == LoadPack(a + b, n).Success?
    ensures LoadPack(a + b, n).Success? ==> LoadPack(a + [Blank] + b, n) == LoadPack(a + b, n)
  {
    NumbersAppend(a, [Blank] + b);
    NumbersAppend([Blank], b);
    NumbersAppend(a, b);
    assert a + [Blank] + b == a + ([Blank] + b);
    var with, without := a + [Blank] + b, a + b;
    assert [Blank][1..] == [];
    assert Numbers(with) == Numbers(without);
    assert (forall i :: 0 <= i < |with| ==> Acceptable(with[i]))
       <==> (forall i :: 0 <= i < |without| ==> Acceptable(without[i])) by {
      if forall i :: 0 <= i < |without| ==> Acceptable(without[i]) {
        forall i | 0 <= i < |with| ensures Acceptable(with[i]) {
          if i < |a| {
            assert with[i] == without[i];
          } else if i > |a| {
            assert with[i] == without[i - 1];
          }
        }
      }
      if forall i :: 0 <= i < |with| ==> Acceptable(with[i]) {
        forall i | 0 <= i < |without| ensures Acceptable(without[i]) {
          if i < |a| {
            assert without[i] == with[i];
          } else {
            assert without[i] == with[i + 1];
          }
        }
      }
    }
  }

  /** The cards of a loaded pack: one new card per value, in order. */
  method NewPack(values: seq<int>) returns (pack: seq<Card>)
    ensures |pack| == |values|
    ensures forall i :: 0 <= i < |pack| ==> pack[i].value == values[i] && fresh(pack[i])
    ensures forall i, j :: 0 <= i < j < |pack| ==> pack[i] != pack[j]
  {
    pack := [];
    var i := 0;
    while i < |values|
      invariant 0 <= i <= |values| && |pack| == i
      invariant forall k :: 0 <= k < i ==> pack[k].value == values[k] && fresh(pack[k])
      invariant forall k, j :: 0 <= k < j < i ==> pack[k] != pack[j]
    {
      var card := new Card(values[i]);
      pack := pack + [card];
      i := i + 1;
    }
  }
}
