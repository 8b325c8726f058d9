/**
 * ISO 216 A-series paper sizes in whole millimetres (`cells/src/paper.rs`).
 *
 * `Paper::from_iso216` renders the size's name ("A0" .. "A8"), parses its
 * digit `n`, then starts from A0 = 841 x 1189 and applies `n` halving steps:
 * the new long side is the old short side and the new short side is half the
 * old long side, rounded down.  Portrait puts the short side in `w`,
 * landscape swaps the two.
 */
module PaperSizes {
  import opened Wrappers

  /** Millimetres (`MM = i32`); every value produced here lies in 0 .. 1189. */
  type MM = int

  datatype Orientation = Portrait | Landscape

  datatype ISO216 = A0 | A1 | A2 | A3 | A4 | A5 | A6 | A7 | A8

  datatype ISO216PaperLookupErr = BadLenErr | ParseIntErr

  datatype Paper = Paper(size: ISO216, w: MM, h: MM)

  /** The two sides of A0, the start of the halving. */
  const A0Longest: MM := 1189
  const A0Shortest: MM := 841

  /** The `Display` text of a size, which is its `Debug` text: the variant name. */
  function Name(size: ISO216): (s: string)
    ensures |s| == 2 && s[0] == 'A'
  {
    match size
    case A0 => "A0"
    case A1 => "A1"
    case A2 => "A2"
    case A3 => "A3"
    case A4 => "A4"
    case A5 => "A5"
    case A6 => "A6"
    case A7 => "A7"
    case A8 => "A8"
  }

  /** The position of a size in the series: 0 for A0 up to 8 for A8. */
  function Index(size: ISO216): nat
  {
    match size
    case A0 => 0
    case A1 => 1
    case A2 => 2
    case A3 => 3
    case A4 => 4
    case A5 => 5
    case A6 => 6
    case A7 => 7
    case A8 => 8
  }

  /** `String::from(c).parse::<i32>()` on a one-character string: only a decimal digit parses. */
  function ParseDigit(c: char): (r: Option<int>)
    ensures r.Some? <==> '0' <= c <= '9'
    ensures r.Some? ==> 0 <= r.value <= 9 && ('0' as int + r.value) as char == c
  {
    if '0' <= c <= '9' then Some(c as int - '0' as int) else None
  }

  /** The size number read from a name, or the error `from_iso216` reports for it. */
  function SheetNumber(name: string): (r: Result<int, ISO216PaperLookupErr>)
    ensures r == Err(BadLenErr) <==> |name| != 2
    ensures r == Err(ParseIntErr) <==> |name| == 2 && !('0' <= name[1] <= '9')
    ensures r.Ok? ==> |name| == 2 && r.value == name[1] as int - '0' as int
  {
    if |name| != 2 then Err(BadLenErr)
    else match ParseDigit(name[1])
      case Some(n) => Ok(n)
      case None => Err(ParseIntErr)
  }

  /** The (shortest, longest) sides after `n` halving steps from A0. */
  function Halvings(n: nat): (MM, MM)
  {
    if n == 0 then (A0Shortest, A0Longest)
    else
      var (shortest, longest) := Halvings(n - 1);
      (longest / 2, shortest)
  }

  /** Width and height of a sheet whose sides are `sides` = (shortest, longest). */
  function Oriented(sides: (MM, MM), orientation: Orientation): (MM, MM)
  {
    match orientation
    case Portrait => (sides.0, sides.1)
    case Landscape => (sides.1, sides.0)
  }

  /** What `from_iso216` returns, as a function of its arguments. */
  function Lookup(size: ISO216, orientation: Orientation): Result<Paper, ISO216PaperLookupErr>
  {
    match SheetNumber(Name(size))
    case Err(e) => Err(e)
    case Ok(n) =>
      var (w, h) := Oriented(Halvings(if n < 0 then 0 else n), orientation);
      Ok(Paper(size, w, h))
  }

  /** `Paper::from_iso216`: the halving loop over the mutable `longest` and `shortest`. */
  method FromIso216(size: ISO216, orientation: Orientation) returns (r: Result<Paper, ISO216PaperLookupErr>)
    ensures r == Lookup(size, orientation)
  {
    var sizeStr := Name(size);
    if |sizeStr| != 2 {
      return Err(BadLenErr);
    }
    var numI := ParseDigit(sizeStr[1]);
    if numI.None? {
      return Err(ParseIntErr);
    }
    var num := numI.value;
    var longest: MM := A0Longest;
    var shortest: MM := A0Shortest;
    var i := 0;
    while i < num
      invariant 0 <= i <= num
      invariant (shortest, longest) == Halvings(i)
    {
      var temp := longest;
      longest := shortest;
      shortest := temp / 2;
      i := i + 1;
    }
    match orientation
    case Portrait => r := Ok(Paper(size, shortest, longest));
    case Landscape => r := Ok(Paper(size, longest, shortest));
  }

  /** Every step keeps shortest <= longest <= 2 * shortest + 1, so portrait is never wider than tall. */
  lemma {:induction false} HalvingsOrdered(n: nat)
    ensures 0 <= Halvings(n).0 <= Halvings(n).1 <= 2 * Halvings(n).0 + 1
  {
    if n > 0 {
      HalvingsOrdered(n - 1);
    }
  }

  /** The model reproduces the ISO 216 A-series table, A0 = 841 x 1189 down to A8 = 52 x 74. */
  lemma {:induction false} MatchesIsoTable()
    ensures Halvings(0) == (841, 1189) && Halvings(1) == (594, 841) && Halvings(2) == (420, 594)
    ensures Halvings(3) == (297, 420) && Halvings(4) == (210, 297) && Halvings(5) == (148, 210)
    ensures Halvings(6) == (105, 148) && Halvings(7) == (74, 105) && Halvings(8) == (52, 74)
  {
    assert Halvings(1) == (594, 841);
    assert Halvings(2) == (420, 594);
    assert Halvings(3) == (297, 420);
    assert Halvings(4) == (210, 297);
    assert Halvings(5) == (148, 210);
    assert Halvings(6) == (105, 148);
    assert Halvings(7) == (74, 105);
  }

  /** Every size succeeds: its name always has length 2 and a digit, which is its index. */
  lemma LookupSucceeds(size: ISO216, orientation: Orientation)
    ensures Lookup(size, orientation).Ok?
    ensures Lookup(size, orientation).value.size == size
    ensures Lookup(size, orientation).value.w == Oriented(Halvings(Index(size)), orientation).0
    ensures Lookup(size, orientation).value.h == Oriented(Halvings(Index(size)), orientation).1
  {
    assert SheetNumber(Name(size)) == Ok(Index(size) as int);
  }

  /** Landscape is portrait with width and height swapped, and portrait is never wider than tall. */
  lemma LandscapeSwapsPortrait(size: ISO216)
    ensures Lookup(size, Portrait).Ok? && Lookup(size, Landscape).Ok?
    ensures Lookup(size, Landscape).value.w == Lookup(size, Portrait).value.h
    ensures Lookup(size, Landscape).value.h == Lookup(size, Portrait).value.w
    ensures 0 <= Lookup(size, Portrait).value.w <= Lookup(size, Portrait).value.h
  {
    LookupSucceeds(size, Portrait);
    LookupSucceeds(size, Landscape);
    HalvingsOrdered(Index(size));
  }

  /** The sizes pinned down by the unit tests: A0 to A4 portrait, and A0 landscape. */
  lemma TestedSizes()
    ensures Lookup(A0, Portrait) == Ok(Paper(A0, 841, 1189))
    ensures Lookup(A1, Portrait) == Ok(Paper(A1, 594, 841))
    ensures Lookup(A2, Portrait) == Ok(Paper(A2, 420, 594))
    ensures Lookup(A3, Portrait) == Ok(Paper(A3, 297, 420))
    ensures Lookup(A4, Portrait) == Ok(Paper(A4, 210, 297))
    ensures Lookup(A0, Landscape) == Ok(Paper(A0, 1189, 841))
  {
    MatchesIsoTable();
    LookupSucceeds(A0, Portrait);
    LookupSucceeds(A1, Portrait);
    LookupSucceeds(A2, Portrait);
    LookupSucceeds(A3, Portrait);
    LookupSucceeds(A4, Portrait);
    LookupSucceeds(A0, Landscape);
  }
}
