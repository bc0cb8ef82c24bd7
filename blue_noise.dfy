/** The blue-noise header generator (tools/blue_noise/src/main.rs): it
    turns a noise image into a C header holding the red and green channel of
    every pixel, row by row from the top-left, as one `uint8_t` array. The
    image file, the output file and their errors are not modelled: the
    image is a parameter and the output is the text the generator writes. */
module BlueNoise {
  import opened Results
  import opened Geometry
  import opened ByteCodecs
  import opened Decimals

  /** A pixel of the decoded image: four 8-bit channels. */
  datatype Rgba = Rgba(r: Byte, g: Byte, b: Byte, a: Byte)

  /** A decoded image: its dimensions and its rows, top row first. */
  datatype Image = Image(width: U32, height: U32, rows: seq<seq<Rgba>>)

  /** Every row holds `width` pixels and there are `height` rows. */
  predicate WellFormed(img: Image) {
    && |img.rows| == img.height
    && forall y :: 0 <= y < |img.rows| ==> |img.rows[y]| == img.width
  }

  /** The lines written before the array declaration. */
  const PREAMBLE: string :=
    "#pragma once\n\n" + "#include <stddef.h>\n" + "#include <stdint.h>\n\n"
    + "// Array contains consecutive R, G values. Pixels are indexed from the top-left.\n"

  /** The array declaration, opening the initializer. */
  function Declaration(count: nat): string {
    "uint8_t blueNoiseValues[" + Decimal(count) + "] = {\n"
  }

  /** The lines written after the last value. */
  function Trailer(width: nat, height: nat): string {
    "};\n" + "const size_t blueNoiseWidth = " + Decimal(width) + ";\n"
      + "const size_t blueNoiseHeight = " + Decimal(height) + ";\n"
  }

  /** The text written for one pixel: its red value, then its green value,
      each followed by ", ". */
  function PixelText(p: Rgba): string {
    Decimal(p.r) + ", " + Decimal(p.g) + ", "
  }

  /** The text of a row's pixels, left to right. */
  function RowText(row: seq<Rgba>): string {
    if |row| == 0 then [] else RowText(row[..|row| - 1]) + PixelText(row[|row| - 1])
  }

  /** The text of the rows, top to bottom. */
  function RowsText(rows: seq<seq<Rgba>>): string {
    if |rows| == 0 then [] else RowsText(rows[..|rows| - 1]) + RowText(rows[|rows| - 1])
  }

  /** `2 * height * width` is evaluated in `u32`; an overflow stops the
      generator (Rust's checked arithmetic) before the declaration. */
  predicate CountOverflows(width: nat, height: nat) {
    2 * height >= U32_LIMIT || 2 * height * width >= U32_LIMIT
  }

  /** The whole header the generator writes for `img`. */
  function HeaderText(img: Image): Result<string>
    requires WellFormed(img)
  {
    if CountOverflows(img.width, img.height) then Failure("attempt to multiply with overflow")
    else Success(PREAMBLE + Declaration(2 * img.height * img.width) + RowsText(img.rows)
                 + Trailer(img.width, img.height))
  }

  /** `main`: the preamble, the declaration, one `write!` per pixel in the
      nested row and column loops, then the trailer. */
  method GenerateHeader(img: Image) returns (r: Result<string>)
    requires WellFormed(img)
    ensures r == HeaderText(img)
  {
    var file := "";
    file := file + "#pragma once\n\n";
    file := file + "#include <stddef.h>\n";
    file := file + "#include <stdint.h>\n\n";
    file := file + "// Array contains consecutive R, G values. Pixels are indexed from the top-left.\n";
    assert file == PREAMBLE;
    if CountOverflows(img.width, img.height) {
      return Failure("attempt to multiply with overflow");
    }
    file := file + Declaration(2 * img.height * img.width);
    ghost var head := file;
    for y := 0 to img.height
      invariant file == head + RowsText(img.rows[..y])
    {
      var row := img.rows[y];
      ghost var above := file;
      for x := 0 to img.width
        invariant file == above + RowText(row[..x])
      {
        file := file + PixelText(row[x]);
        RowTextStep(row, x, above);
      }
      assert row[..img.width] == row;
      RowsTextStep(img.rows, y, head);
    }
    assert img.rows[..img.height] == img.rows;
    file := file + Trailer(img.width, img.height);
    r := Success(file);
  }

  lemma RowTextStep(row: seq<Rgba>, x: nat, s: string)
    requires x < |row|
    ensures s + RowText(row[..x + 1]) == s + RowText(row[..x]) + PixelText(row[x])
  {
    assert row[..x + 1][..x] == row[..x];
  }

  lemma RowsTextStep(rows: seq<seq<Rgba>>, y: nat, s: string)
    requires y < |rows|
    ensures s + RowsText(rows[..y + 1]) == s + RowsText(rows[..y]) + RowText(rows[y])
  {
    assert rows[..y + 1][..y] == rows[..y];
  }

  /** The values a row contributes: red then green of each pixel. */
  function RowValues(row: seq<Rgba>): (vs: seq<Byte>)
    ensures |vs| == 2 * |row|
  {
    if |row| == 0 then [] else RowValues(row[..|row| - 1]) + [row[|row| - 1].r, row[|row| - 1].g]
  }

  /** The values of the rows, top to bottom. */
  function RowsValues(rows: seq<seq<Rgba>>): seq<Byte> {
    if |rows| == 0 then [] else RowsValues(rows[..|rows| - 1]) + RowValues(rows[|rows| - 1])
  }

  /** Values printed as an initializer list: each one followed by ", ". */
  function Join(vs: seq<nat>): string {
    if |vs| == 0 then [] else Join(vs[..|vs| - 1]) + Decimal(vs[|vs| - 1]) + ", "
  }

  lemma {:induction false} JoinAppend(a: seq<nat>, b: seq<nat>)
    ensures Join(a + b) == Join(a) + Join(b)
  {
    if |b| > 0 {
      var n := |b| - 1;
      assert (a + b)[..|a + b| - 1] == a + b[..n];
      JoinAppend(a, b[..n]);
      var tail := Decimal(b[n]) + ", ";
      calc {
        Join(a + b);
        Join(a + b[..n]) + tail;
        (Join(a) + Join(b[..n])) + tail;
        Join(a) + (Join(b[..n]) + tail);
        Join(a) + Join(b);
      }
    } else {
      assert a + b == a;
    }
  }

  lemma {:induction false} RowTextValues(row: seq<Rgba>)
    ensures RowText(row) == Join(RowValues(row))
  {
    if |row| > 0 {
      var n := |row| - 1;
      var p := row[n];
      RowTextValues(row[..n]);
      JoinAppend(RowValues(row[..n]), [p.r, p.g]);
      var pair: seq<nat> := [p.r, p.g];
      assert pair[..1] == [p.r];
      assert [p.r][..0] == [];
      assert Join([p.r]) == Decimal(p.r) + ", ";
      assert Join(pair) == PixelText(p);
    }
  }

  /** The body of the initializer is exactly the image's values printed in
      order. */
  lemma {:induction false} RowsTextValues(rows: seq<seq<Rgba>>)
    ensures RowsText(rows) == Join(RowsValues(rows))
  {
    if |rows| > 0 {
      var n := |rows| - 1;
      RowsTextValues(rows[..n]);
      RowTextValues(rows[n]);
      JoinAppend(RowsValues(rows[..n]), RowValues(rows[n]));
    }
  }

  /** `height` rows of `width` pixels give `2 * height * width` values. */
  lemma {:induction false} RowsValuesCount(rows: seq<seq<Rgba>>, width: nat)
    requires forall y :: 0 <= y < |rows| ==> |rows[y]| == width
    ensures |RowsValues(rows)| == 2 * |rows| * width
  {
    if |rows| > 0 {
      RowsValuesCount(rows[..|rows| - 1], width);
    }
  }

  lemma {:induction false} RowValueAt(row: seq<Rgba>, x: nat)
    requires x < |row|
    ensures RowValues(row)[2 * x] == row[x].r && RowValues(row)[2 * x + 1] == row[x].g
  {
    if x < |row| - 1 {
      RowValueAt(row[..|row| - 1], x);
    }
  }

  lemma RowOffset(y: nat, x: nat, n: nat, width: nat)
    requires y < n && x < width
    ensures 2 * (y * width + x) + 1 < 2 * n * width
  {
    assert y * width + x < (y + 1) * width;
    assert (y + 1) * width <= n * width;
  }

  /** Pixel (x, y), counted from the top-left, owns values 2(y*width + x)
      (red) and 2(y*width + x) + 1 (green). */
  lemma {:induction false} RowsValueAt(rows: seq<seq<Rgba>>, width: nat, y: nat, x: nat)
    requires forall k :: 0 <= k < |rows| ==> |rows[k]| == width
    requires y < |rows| && x < width
    ensures 2 * (y * width + x) + 1 < |RowsValues(rows)|
    ensures RowsValues(rows)[2 * (y * width + x)] == rows[y][x].r
    ensures RowsValues(rows)[2 * (y * width + x) + 1] == rows[y][x].g
  {
    var n := |rows| - 1;
    var above, last := RowsValues(rows[..n]), RowValues(rows[n]);
    assert RowsValues(rows) == above + last;
    RowsValuesCount(rows[..n], width);
    var nw := n * width;
    assert |above| == 2 * nw;
    var i := 2 * (y * width + x);
    if y < n {
      RowOffset(y, x, n, width);
      RowsValueAt(rows[..n], width, y, x);
    } else {
      assert y * width == nw;
      assert i == 2 * nw + 2 * x;
      RowValueAt(rows[n], x);
    }
  }

  /** Reads an initializer list back: digit runs each followed by ", ". */
  function ParseValues(s: string): Option<seq<nat>>
    decreases |s|
  {
    if |s| == 0 then Some([])
    else
      var k := LeadingDigits(s);
      if k == 0 || |s| < k + 2 || s[k..k + 2] != ", " then None
      else
        match ParseValues(s[k + 2..])
        case None => None
        case Some(rest) => Some([DigitsValue(s[..k])] + rest)
  }

  /** The printed list reads back as the values printed. */
  lemma {:induction false} ParseJoin(vs: seq<nat>)
    ensures ParseValues(Join(vs)) == Some(vs)
  {
    if |vs| > 0 {
      var v, rest := vs[0], vs[1..];
      JoinAppend([v], rest);
      assert [v][..0] == [];
      assert Join([v]) == Decimal(v) + ", ";
      assert vs == [v] + rest;
      var d := Decimal(v);
      var s := Join(vs);
      assert s == d + (", " + Join(rest));
      LeadingDigitsOf(d, ", " + Join(rest));
      assert s[..|d|] == d;
      assert s[|d|..|d| + 2] == ", ";
      assert s[|d| + 2..] == Join(rest);
      ParseJoin(rest);
      DecimalRoundTrip(v);
    }
  }

  /** The header declares exactly as many values as its initializer holds,
      and those values are the image's red and green channels. */
  lemma HeaderValues(img: Image)
    requires WellFormed(img) && !CountOverflows(img.width, img.height)
    ensures var vs := RowsValues(img.rows);
            && |vs| == 2 * img.height * img.width
            && HeaderText(img) == Success(PREAMBLE + Declaration(|vs|) + Join(vs) + Trailer(img.width, img.height))
            && ParseValues(Join(vs)) == Some(vs)
  {
    RowsValuesCount(img.rows, img.width);
    RowsTextValues(img.rows);
    ParseJoin(RowsValues(img.rows));
  }

  /** A 128 x 128 noise image gives the 32768 values the checked-in header
      declares. */
  lemma NoiseImageLength(img: Image)
    requires WellFormed(img) && img.width == 128 && img.height == 128
    ensures !CountOverflows(img.width, img.height)
    ensures |RowsValues(img.rows)| == 32768
  {
    RowsValuesCount(img.rows, img.width);
  }
}
