/** The mask patterns as pictures (section 7.8.2 of ISO/IEC 18004:2015; frontend/js/qrcodegen.js,
    applyMask). */
module Masks {
  import opened Grids
  import opened Symbols

  // One period of each mask pattern from the top left corner, inverted modules as 1.
  function MaskPicture(mask: nat): (rows: seq<string>)
    requires mask < 8
    ensures |rows| == if mask == 4 then 4 else 6
    ensures forall i :: 0 <= i < |rows| ==> |rows[i]| == 6
  {
    match mask
    case 0 => ["101010", "010101", "101010", "010101", "101010", "010101"]
    case 1 => ["111111", "000000", "111111", "000000", "111111", "000000"]
    case 2 => ["100100", "100100", "100100", "100100", "100100", "100100"]
    case 3 => ["100100", "001001", "010010", "100100", "001001", "010010"]
    case 4 => ["111000", "111000", "000111", "000111"]
    case 5 => ["111111", "100000", "100100", "101010", "100100", "100000"]
    case 6 => ["111111", "111000", "110110", "101010", "101101", "100011"]
    case _ => ["101010", "000111", "100011", "010101", "111000", "011100"]
  }

  lemma {:induction false} Halves(x: nat)
    ensures x % 6 % 2 == x % 2
  {
    var q := x / 6;
    assert x == 2 * (3 * q) + x % 6;
  }

  lemma {:induction false} Thirds(x: nat)
    ensures x % 6 % 3 == x % 3 && x / 3 % 2 == x % 6 / 3
  {
    var q := x / 6;
    assert x == 3 * (2 * q) + x % 6;
  }

  lemma {:induction false} Quarters(y: nat)
    ensures y / 2 % 2 == y % 4 / 2
  {
  }

  lemma {:induction false} TwoAndRest(n: nat, k: nat, r: nat)
    requires n == 2 * k + r
    ensures n % 2 == r % 2
  {
  }

  lemma {:induction false} ThreeAndRest(n: nat, k: nat, r: nat)
    requires n == 3 * k + r
    ensures n % 3 == r % 3
  {
  }

  lemma {:induction false} TimesOut(p: nat, m: nat, r: nat, y: nat)
    ensures (m * p + r) * y == m * (p * y) + r * y
  {
    assert (m * p) * y == m * (p * y);
  }

  lemma {:induction false} EvenTimes(p: nat, y: nat)
    ensures 2 * p * y % 2 == 0 && (2 * p + 1) * y % 2 == y % 2
  {
    TimesOut(p, 2, 0, y);
    TimesOut(p, 2, 1, y);
    TwoAndRest((2 * p) * y, p * y, 0);
    TwoAndRest((2 * p + 1) * y, p * y, y);
  }

  lemma {:induction false} ProductByTwo(x: nat, y: nat)
    ensures x * y % 2 == if x % 2 == 0 then 0 else y % 2
  {
    var p := x / 2;
    EvenTimes(p, y);
    assert x == 2 * p || x == 2 * p + 1;
  }

  lemma {:induction false} ThriceTimes(p: nat, y: nat)
    ensures 3 * p * y % 3 == 0 && (3 * p + 1) * y % 3 == y % 3 && (3 * p + 2) * y % 3 == 2 * y % 3
  {
    TimesOut(p, 3, 0, y);
    TimesOut(p, 3, 1, y);
    TimesOut(p, 3, 2, y);
    ThreeAndRest((3 * p) * y, p * y, 0);
    ThreeAndRest((3 * p + 1) * y, p * y, y);
    ThreeAndRest((3 * p + 2) * y, p * y, 2 * y);
  }

  lemma {:induction false} ProductByThree(x: nat, y: nat)
    ensures x * y % 3 == if x % 3 == 0 then 0 else if x % 3 == 1 then y % 3 else 2 * (y % 3) % 3
  {
    var p := x / 3;
    ThriceTimes(p, y);
    TwiceByThree(y);
    assert x == 3 * p || x == 3 * p + 1 || x == 3 * p + 2;
  }

  lemma {:induction false} TwiceByThree(y: nat)
    ensures 2 * y % 3 == 2 * (y % 3) % 3
  {
    ThreeAndRest(2 * y, 2 * (y / 3), 2 * (y % 3));
  }

  // The products in the conditions depend on remainders by 6 only.
  lemma {:induction false} ProductOfRemainders(x: nat, y: nat)
    ensures x * y % 2 == (x % 6) * (y % 6) % 2 && x * y % 3 == (x % 6) * (y % 6) % 3
  {
    Halves(x);
    Halves(y);
    Thirds(x);
    Thirds(y);
    ProductByTwo(x, y);
    ProductByTwo(x % 6, y % 6);
    ProductByThree(x, y);
    ProductByThree(x % 6, y % 6);
  }

  lemma {:induction false} SumByTwo(x: nat, y: nat)
    ensures (x + y) % 2 == (x % 6 + y % 6) % 2
  {
    var p, q := x / 6, y / 6;
    assert x + y == 2 * (3 * p + 3 * q) + (x % 6 + y % 6);
  }

  lemma {:induction false} SumByThree(x: nat, y: nat)
    ensures (x + y) % 3 == (x % 6 + y % 6) % 3
  {
    var p, q := x / 6, y / 6;
    assert x + y == 3 * (2 * p + 2 * q) + (x % 6 + y % 6);
  }

  lemma {:induction false} PeriodicSums(mask: nat, c: Cell)
    requires mask < 5
    ensures Inverts(mask, c) == Inverts(mask, Cell(c.x % 6, c.y % |MaskPicture(mask)|))
  {
    if mask == 0 {
      SumByTwo(c.x, c.y);
    } else if mask == 1 {
      Halves(c.y);
    } else if mask == 2 {
      Thirds(c.x);
    } else if mask == 3 {
      SumByThree(c.x, c.y);
    } else {
      Thirds(c.x);
      Quarters(c.y);
      FourthCondition(c.x / 3, c.y / 2);
      FourthCondition(c.x % 6 / 3, c.y % 4 / 2);
    }
  }

  lemma {:induction false} PeriodicProducts(mask: nat, c: Cell)
    requires 5 <= mask < 8
    ensures Inverts(mask, c) == Inverts(mask, Cell(c.x % 6, c.y % 6))
  {
    ProductOfRemainders(c.x, c.y);
    SumByTwo(c.x, c.y);
  }

  lemma {:induction false} Periodic(mask: nat, c: Cell)
    requires mask < 8
    ensures Inverts(mask, c) == Inverts(mask, Cell(c.x % 6, c.y % |MaskPicture(mask)|))
  {
    if mask < 5 {
      PeriodicSums(mask, c);
    } else {
      PeriodicProducts(mask, c);
    }
  }

  lemma {:induction false} FourthCondition(a: nat, b: nat)
    ensures (a + b) % 2 == 0 <==> a % 2 == b % 2
  {
  }

  lemma {:induction false} Masks0And1(mask: nat, x: nat, y: nat)
    requires mask < 2 && x < 6 && y < |MaskPicture(mask)|
    ensures Inverts(mask, Cell(x, y)) <==> MaskPicture(mask)[y][x] == '1'
  {
  }

  lemma {:induction false} Masks2And3(mask: nat, x: nat, y: nat)
    requires 2 <= mask < 4 && x < 6 && y < |MaskPicture(mask)|
    ensures Inverts(mask, Cell(x, y)) <==> MaskPicture(mask)[y][x] == '1'
  {
  }

  lemma {:induction false} SmallProducts(x: nat, y: nat)
    requires x < 6 && y < 6
    ensures x * y == if y == 0 then 0 else if y == 1 then x else if y == 2 then 2 * x else if y == 3 then 3 * x else if y == 4 then 4 * x else 5 * x
  {
  }

  lemma {:induction false} Masks4And5(mask: nat, x: nat, y: nat)
    requires 4 <= mask < 6 && x < 6 && y < |MaskPicture(mask)|
    ensures Inverts(mask, Cell(x, y)) <==> MaskPicture(mask)[y][x] == '1'
  {
    SmallProducts(x, y);
  }

  lemma {:induction false} Mask6(mask: nat, x: nat, y: nat)
    requires mask == 6 && x < 6 && y < |MaskPicture(mask)|
    ensures Inverts(mask, Cell(x, y)) <==> MaskPicture(mask)[y][x] == '1'
  {
    SmallProducts(x, y);
  }

  lemma {:induction false} Mask7(mask: nat, x: nat, y: nat)
    requires mask == 7 && x < 6 && y < |MaskPicture(mask)|
    ensures Inverts(mask, Cell(x, y)) <==> MaskPicture(mask)[y][x] == '1'
  {
    SmallProducts(x, y);
  }

  lemma {:induction false} OnePeriod(mask: nat, x: nat, y: nat)
    requires mask < 8 && x < 6 && y < |MaskPicture(mask)|
    ensures Inverts(mask, Cell(x, y)) <==> MaskPicture(mask)[y][x] == '1'
  {
    if mask < 2 {
      Masks0And1(mask, x, y);
    } else if mask < 4 {
      Masks2And3(mask, x, y);
    } else if mask < 6 {
      Masks4And5(mask, x, y);
    } else if mask == 6 {
      Mask6(mask, x, y);
    } else {
      Mask7(mask, x, y);
    }
  }

  /** Each mask inverts the modules of its picture, repeated over the symbol. */
  lemma {:induction false} MaskPictures(mask: nat, c: Cell)
    requires mask < 8
    ensures Inverts(mask, c) <==> MaskPicture(mask)[c.y % |MaskPicture(mask)|][c.x % 6] == '1'
  {
    Periodic(mask, c);
    OnePeriod(mask, c.x % 6, c.y % |MaskPicture(mask)|);
  }
}
