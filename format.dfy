/** `Stat.String`: the unit a byte count is shown in, the decimal rendering of
    the plain-byte branch, and the surrounding `Stat(... files, ... dirs, ...)`
    text. The `%.3f` rendering of the scaled figure is floating point and is a
    parameter here. */
module Format {
  import opened Stats

  /** The branch `Stat.String` takes: a plain byte count or one of four binary units. */
  datatype ByteUnit = Plain | KiB | MiB | GiB | TiB
  {
    /** The divisor of the scaled figure: 1, 2^10, 2^20, 2^30 or 2^40. */
    function Scale(): nat {
      match this
      case Plain => 1
      case KiB => 0x400
      case MiB => 0x10_0000
      case GiB => 0x4000_0000
      case TiB => 0x100_0000_0000
    }

    /** Position of the unit in increasing order of size. */
    function Rank(): nat {
      match this
      case Plain => 0
      case KiB => 1
      case MiB => 2
      case GiB => 3
      case TiB => 4
    }

    /** The text after the figure. */
    function Suffix(): string {
      match this
      case Plain => "B"
      case KiB => " KiB"
      case MiB => " MiB"
      case GiB => " GiB"
      case TiB => " TiB"
    }
  }

  /** The unit for `bytes`: the case of the switch whose strict `>` comparison
      matches first. The scaled figure `bytes / Scale()` of a unit is above 1 and,
      below TiB, at most 1024; plain counts are at most 1024. */
  function UnitFor(bytes: u64): (u: ByteUnit)
    ensures u != Plain ==> bytes as int > u.Scale()
    ensures u != TiB ==> bytes as int <= 1024 * u.Scale()
  {
    if bytes > 0x100_0000_0000 then TiB
    else if bytes > 0x4000_0000 then GiB
    else if bytes > 0x10_0000 then MiB
    else if bytes > 0x400 then KiB
    else Plain
  }

  /** The two bounds of `UnitFor` single out one unit: any unit that meets them is it. */
  lemma UnitForUnique(bytes: u64, u: ByteUnit)
    requires u != Plain ==> bytes as int > u.Scale()
    requires u != TiB ==> bytes as int <= 1024 * u.Scale()
    ensures u == UnitFor(bytes)
  {
  }

  /** More bytes never select a smaller unit. */
  lemma UnitForMonotone(a: u64, b: u64)
    requires a <= b
    ensures UnitFor(a).Rank() <= UnitFor(b).Rank()
  {
  }

  /** The boundaries use strict `>`: a count equal to a power of 1024 stays in the
      unit below it. */
  lemma UnitBoundaries()
    ensures UnitFor(0x400) == Plain && UnitFor(0x401) == KiB
    ensures UnitFor(0x10_0000) == KiB && UnitFor(0x10_0001) == MiB
    ensures UnitFor(0x4000_0000) == MiB && UnitFor(0x4000_0001) == GiB
    ensures UnitFor(0x100_0000_0000) == GiB && UnitFor(0x100_0000_0001) == TiB
  {
  }

  predicate IsDigit(c: char) {
    '0' <= c <= '9'
  }

  predicate AllDigits(s: string) {
    forall i :: 0 <= i < |s| ==> IsDigit(s[i])
  }

  /** The form `%d` produces: at least one digit and no leading zero. */
  predicate Canonical(s: string) {
    s != [] && AllDigits(s) && (|s| > 1 ==> s[0] != '0')
  }

  function DigitChar(d: nat): (c: char)
    requires d < 10
    ensures IsDigit(c) && c as int - '0' as int == d
  {
    ('0' as int + d) as char
  }

  /** `%d` of a non-negative integer. */
  function Decimal(n: nat): (r: string)
    ensures Canonical(r)
    decreases n
  {
    if n < 10 then [DigitChar(n)] else Decimal(n / 10) + [DigitChar(n % 10)]
  }

  /** The number a string of decimal digits denotes. */
  function DecimalValue(s: string): nat
    requires AllDigits(s)
    decreases |s|
  {
    if s == [] then 0
    else DecimalValue(s[..|s| - 1]) * 10 + (s[|s| - 1] as int - '0' as int)
  }

  /** Reading back `%d` gives the number printed. */
  lemma {:induction false} DecimalRoundTrip(n: nat)
    ensures DecimalValue(Decimal(n)) == n
    decreases n
  {
    if n >= 10 {
      var r := Decimal(n);
      assert r[..|r| - 1] == Decimal(n / 10);
      DecimalRoundTrip(n / 10);
    }
  }

  /** Every canonical digit string is what `%d` prints for its value. */
  lemma {:induction false} CanonicalRoundTrip(s: string)
    requires Canonical(s)
    ensures Decimal(DecimalValue(s)) == s
    decreases |s|
  {
    if |s| > 1 {
      var init := s[..|s| - 1];
      assert init[0] == s[0];
      CanonicalRoundTrip(init);
      LeadingDigitPositive(init);
      var n := DecimalValue(s);
      var d := s[|s| - 1] as int - '0' as int;
      assert n == DecimalValue(init) * 10 + d;
      assert n / 10 == DecimalValue(init) && n % 10 == d;
      assert s == init + [s[|s| - 1]];
    }
  }

  /** A digit string that does not start with '0' denotes a positive number. */
  lemma {:induction false} LeadingDigitPositive(s: string)
    requires s != [] && AllDigits(s) && s[0] != '0'
    ensures DecimalValue(s) > 0
    decreases |s|
  {
    if |s| > 1 {
      var init := s[..|s| - 1];
      assert init[0] == s[0];
      LeadingDigitPositive(init);
    }
  }

  /** The byte part of the text. `figure` stands for the `%.3f` rendering of
      `bytes / UnitFor(bytes).Scale()`, a floating-point value not computed here.
      The text ends in the selected unit's suffix; a plain count's digits read
      back as the count, and a scaled count starts with the figure. */
  function SizeText(bytes: u64, figure: string): (r: string)
    ensures EndsIn(r, UnitFor(bytes).Suffix())
    ensures UnitFor(bytes) == Plain ==>
      |r| >= 2 && Canonical(r[..|r| - 1]) && DecimalValue(r[..|r| - 1]) == bytes as int
    ensures UnitFor(bytes) != Plain ==> |r| == |figure| + 4 && r[..|figure|] == figure
  {
    var u := UnitFor(bytes);
    if u == Plain then
      var digits := Decimal(bytes as nat);
      DecimalRoundTrip(bytes as nat);
      assert (digits + "B")[..|digits|] == digits;
      digits + "B"
    else
      figure + u.Suffix()
  }

  /** `Stat.String`: the file and directory counts and the byte part. The text
      is wrapped in `Stat(` and `)`, the digits right after `Stat(` read back as
      the number of files, and the text ends in the suffix of the unit chosen
      for the byte count. */
  function StatString(s: Stat, figure: string): (r: string)
    ensures |r| > 6 && r[..5] == "Stat(" && r[|r| - 1] == ')'
    ensures Canonical(FieldAt(r, 5)) && DecimalValue(FieldAt(r, 5)) == s.files as int
    ensures EndsIn(r, UnitFor(s.bytes).Suffix() + ")")
  {
    var r := "Stat(" + Decimal(s.files as nat) + AfterFiles(s, figure);
    StatTextFrame(s, figure);
    DigitField("Stat(", s.files as nat, AfterFiles(s, figure), 5);
    StatTextEnds(s, figure);
    r
  }

  function AfterFiles(s: Stat, figure: string): string {
    " files, " + Decimal(s.dirs as nat) + AfterDirs(s, figure)
  }

  function AfterDirs(s: Stat, figure: string): string {
    " dirs, " + SizeText(s.bytes, figure) + ")"
  }

  /** The last `|suffix|` characters of `t` are `suffix`. */
  predicate EndsIn(t: string, suffix: string) {
    |t| >= |suffix| && t[|t| - |suffix|..] == suffix
  }

  /** A text ending in `suffix` still ends in it after a prefix is put in front. */
  lemma EndsWith(head: string, body: string, suffix: string)
    requires EndsIn(body, suffix)
    ensures EndsIn(head + body, suffix)
  {
    assert (head + body)[|head + body| - |suffix|..] == body[|body| - |suffix|..];
  }

  /** Everything after the file count ends in the byte unit's suffix and `)`. */
  lemma AfterFilesEnds(s: Stat, figure: string)
    ensures EndsIn(AfterFiles(s, figure), UnitFor(s.bytes).Suffix() + ")")
  {
    var size := SizeText(s.bytes, figure);
    var suffix := UnitFor(s.bytes).Suffix();
    var t := " dirs, " + size + ")";
    assert t[|t| - |suffix + ")"|..] == size[|size| - |suffix|..] + ")";
    EndsWith(" files, " + Decimal(s.dirs as nat), t, suffix + ")");
  }

  lemma StatTextEnds(s: Stat, figure: string)
    ensures EndsIn("Stat(" + Decimal(s.files as nat) + AfterFiles(s, figure), UnitFor(s.bytes).Suffix() + ")")
  {
    AfterFilesEnds(s, figure);
    EndsWith("Stat(" + Decimal(s.files as nat), AfterFiles(s, figure), UnitFor(s.bytes).Suffix() + ")");
  }

  lemma StatTextFrame(s: Stat, figure: string)
    ensures var r := "Stat(" + Decimal(s.files as nat) + AfterFiles(s, figure);
      |r| > 6 && r[..5] == "Stat(" && r[|r| - 1] == ')'
  {
    var rest := AfterFiles(s, figure);
    AfterFilesEnds(s, figure);
    var r := "Stat(" + Decimal(s.files as nat) + rest;
    assert r[|r| - 1] == rest[|rest| - 1];
    assert r[..5] == "Stat(";
  }

  /** A plain byte count prints as its decimal digits followed by `B`, whatever
      the figure, and the digits read back as the count. */
  lemma PlainSizeText(bytes: u64, figure: string)
    requires bytes as int <= 1024
    ensures var r := SizeText(bytes, figure);
      |r| >= 2 && r[|r| - 1] == 'B' && Canonical(r[..|r| - 1])
      && DecimalValue(r[..|r| - 1]) == bytes as int
      && r == SizeText(bytes, "")
  {
    var digits := Decimal(bytes as nat);
    assert (digits + "B")[..|digits|] == digits;
    DecimalRoundTrip(bytes as nat);
  }

  /** A scaled count prints as the figure followed by a space and the unit name. */
  lemma ScaledSizeText(bytes: u64, figure: string)
    requires bytes as int > 1024
    ensures var r := SizeText(bytes, figure);
      |r| == |figure| + 4 && r[..|figure|] == figure && r[|figure|] == ' '
      && r[|figure| + 2..] == "iB"
  {
  }

  /** The length of the run of digits that `z` starts with. */
  function DigitRun(z: string): (n: nat)
    ensures n <= |z|
    decreases |z|
  {
    if z == [] || !IsDigit(z[0]) then 0 else 1 + DigitRun(z[1..])
  }

  /** The run `DigitRun` measures is made of digits. */
  lemma {:induction false} DigitRunDigits(z: string)
    ensures AllDigits(z[..DigitRun(z)])
    decreases |z|
  {
    if z != [] && IsDigit(z[0]) {
      DigitRunDigits(z[1..]);
      assert z[..DigitRun(z)] == [z[0]] + z[1..][..DigitRun(z[1..])];
    }
  }

  /** The run of digits that starts at position `i` of `r`. */
  function FieldAt(r: string, i: nat): (f: string)
    requires i <= |r|
    ensures AllDigits(f) && i + |f| <= |r| && f == r[i..i + |f|]
  {
    DigitRunDigits(r[i..]);
    r[i..][..DigitRun(r[i..])]
  }

  /** Digits followed by a non-digit: the run is exactly the digits. */
  lemma {:induction false} DigitRunOf(x: string, r: string)
    requires AllDigits(x) && r != [] && !IsDigit(r[0])
    ensures DigitRun(x + r) == |x|
    decreases |x|
  {
    if x != [] {
      assert (x + r)[1..] == x[1..] + r;
      DigitRunOf(x[1..], r);
    }
  }

  /** `p`, then `%d` of `n`, then a text that starts with a non-digit: the digit
      run at `|p|` is `n`'s digits and reads back as `n`. */
  lemma DigitField(p: string, n: nat, rest: string, at: nat)
    requires rest != [] && !IsDigit(rest[0]) && at == |p|
    ensures var t := p + Decimal(n) + rest;
      FieldAt(t, at) == Decimal(n) && DecimalValue(FieldAt(t, at)) == n
  {
    var t := p + Decimal(n) + rest;
    assert t[|p|..] == Decimal(n) + rest;
    DigitRunOf(Decimal(n), rest);
    assert (Decimal(n) + rest)[..|Decimal(n)|] == Decimal(n);
    DecimalRoundTrip(n);
  }

  /** The position in `StatString` where the directory count starts: after
      the file count and `" files, "`. */
  function DirsAt(r: string): nat
    requires |r| >= 5
  {
    5 + |FieldAt(r, 5)| + 8
  }

  /** The directory count reads back from the digits after `" files, "`: they
      are exactly `%d` of the count. */
  lemma StatStringDirs(s: Stat, figure: string)
    ensures var r := StatString(s, figure); var j := DirsAt(r);
      j == 5 + |Decimal(s.files as nat)| + 8 && j <= |r| && r[j - 8..j] == " files, "
      && FieldAt(r, j) == Decimal(s.dirs as nat) && DecimalValue(FieldAt(r, j)) == s.dirs as int
  {
    var r := StatString(s, figure);
    var x := Decimal(s.files as nat);
    DigitField("Stat(", s.files as nat, AfterFiles(s, figure), 5);
    SecondField(r, x, s.dirs as nat, AfterDirs(s, figure), DirsAt(r));
  }

  /** The field after `"Stat(" + x + " files, "` is `%d` of `n`. */
  lemma SecondField(r: string, x: string, n: nat, rest: string, j: nat)
    requires rest != [] && !IsDigit(rest[0])
    requires r == "Stat(" + x + (" files, " + Decimal(n) + rest) && j == 5 + |x| + 8
    ensures j <= |r| && r[j - 8..j] == " files, "
    ensures FieldAt(r, j) == Decimal(n) && DecimalValue(FieldAt(r, j)) == n
  {
    var p := "Stat(" + x + " files, ";
    assert r == p + Decimal(n) + rest;
    DigitField(p, n, rest, j);
    assert r[j - 8..j] == p[j - 8..];
  }

  /** The position in `StatString` where a plain byte count starts: after the
      directory count and `" dirs, "`. */
  function BytesAt(r: string): nat
    requires |r| >= 5 && DirsAt(r) <= |r|
  {
    DirsAt(r) + |FieldAt(r, DirsAt(r))| + 7
  }

  /** After the directory count and `" dirs, "`, `r` holds the canonical digits
      of `n` followed by `B)` and nothing else. */
  predicate PlainBytesField(r: string, n: int)
    requires |r| >= 5
  {
    DirsAt(r) <= |r| && var k := BytesAt(r);
    k <= |r| && r[k - 7..k] == " dirs, "
    && Canonical(FieldAt(r, k)) && DecimalValue(FieldAt(r, k)) == n
    && r[k + |FieldAt(r, k)|..] == "B)"
  }

  /** A plain byte count reads back from the digits after `" dirs, "`, which are
      followed by `B)` and nothing else. */
  lemma StatStringPlainBytes(s: Stat, figure: string)
    requires s.bytes as int <= 1024
    ensures PlainBytesField(StatString(s, figure), s.bytes as int)
  {
    StatStringPlainForm(s, figure);
    PlainFields(StatString(s, figure), s.files as nat, s.dirs as nat, s.bytes as nat);
  }

  /** The three fields of a text of the plain form read back as its counts. */
  lemma PlainFields(r: string, files: nat, dirs: nat, bytes: nat)
    requires r == "Stat(" + Decimal(files)
      + (" files, " + Decimal(dirs) + (" dirs, " + (Decimal(bytes) + "B") + ")"))
    ensures PlainBytesField(r, bytes)
  {
    var x, y := Decimal(files), Decimal(dirs);
    var rest := " dirs, " + (Decimal(bytes) + "B") + ")";
    DigitField("Stat(", files, " files, " + y + rest, 5);
    var j := DirsAt(r);
    assert j == 5 + |x| + 8;
    SecondField(r, x, dirs, rest, j);
    var k := BytesAt(r);
    assert k == j + |y| + 7;
    ThirdField(r, x, y, bytes, j, k);
  }

  /** With a plain byte count the whole text is made of three `%d` fields. */
  lemma StatStringPlainForm(s: Stat, figure: string)
    requires s.bytes as int <= 1024
    ensures StatString(s, figure) == "Stat(" + Decimal(s.files as nat)
      + (" files, " + Decimal(s.dirs as nat) + (" dirs, " + (Decimal(s.bytes as nat) + "B") + ")"))
  {
    assert SizeText(s.bytes, figure) == Decimal(s.bytes as nat) + "B";
  }

  /** The field after `"Stat(" + x + " files, " + y + " dirs, "` is `%d` of `n`,
      followed by `B)`. */
  lemma ThirdField(r: string, x: string, y: string, n: nat, j: nat, k: nat)
    requires r == "Stat(" + x + (" files, " + y + (" dirs, " + (Decimal(n) + "B") + ")"))
    requires j == 5 + |x| + 8 && k == j + |y| + 7
    ensures k <= |r| && r[k - 7..k] == " dirs, "
    ensures FieldAt(r, k) == Decimal(n) && DecimalValue(FieldAt(r, k)) == n
    ensures r[k + |Decimal(n)|..] == "B)"
  {
    var q := "Stat(" + x + " files, " + y + " dirs, ";
    Regroup("Stat(", x, " files, ", y, " dirs, ", Decimal(n), "B", ")");
    assert "B" + ")" == "B)";
    DigitField(q, n, "B)", k);
    assert r[k - 7..k] == q[k - 7..];
    assert r[k + |Decimal(n)|..] == "B)";
  }

  lemma Regroup(a: string, b: string, c: string, d: string, e: string, f: string, g: string, h: string)
    ensures a + b + (c + d + (e + (f + g) + h)) == a + b + c + d + e + f + (g + h)
  {
  }

  /** The text determines the file and directory counts, and a plain byte
      count too, whatever scaled figure each text was rendered with. */
  lemma StatStringDeterminesCounts(s: Stat, t: Stat, figureS: string, figureT: string)
    requires StatString(s, figureS) == StatString(t, figureT)
    ensures s.files == t.files && s.dirs == t.dirs
    ensures s.bytes as int <= 1024 && t.bytes as int <= 1024 ==> s.bytes == t.bytes
  {
    StatStringDirs(s, figureS);
    StatStringDirs(t, figureT);
    if s.bytes as int <= 1024 && t.bytes as int <= 1024 {
      StatStringPlainBytes(s, figureS);
      StatStringPlainBytes(t, figureT);
    }
  }
}
