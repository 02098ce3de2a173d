/** Naming and path layout shared by the backends: the extension of the
    submitted name, the generated file name, and the date-partitioned
    directory (`yyyy/MM/dd` for the local disk, `yyyy/MM` for the cloud store)
    that `Paths.get` rewrites with the platform separator. */
module Layout {
  import opened Text

  /** A calendar date as `LocalDate.now()` returns it. */
  datatype Date = Date(year: nat, month: nat, day: nat) {
    predicate Valid() {
      1 <= year <= 9999 && 1 <= month <= 12 && 1 <= day <= 31
    }
  }

  predicate IsDigit(c: char) {
    '0' <= c <= '9'
  }

  predicate AllDigits(s: string) {
    forall i :: 0 <= i < |s| ==> IsDigit(s[i])
  }

  function DigitChar(n: nat): (c: char)
    requires n < 10
    ensures IsDigit(c)
  {
    (48 + n) as char
  }

  function DigitValue(c: char): nat
    requires IsDigit(c)
  {
    c as int - 48
  }

  function Pow10(n: nat): (r: nat)
    ensures r >= 1
  {
    if n == 0 then 1 else 10 * Pow10(n - 1)
  }

  /** The low `width` decimal digits of `n`, zero-padded (the `yyyy`, `MM`, `dd`
      fields of a date pattern). */
  function Pad(n: nat, width: nat): (r: string)
    ensures |r| == width && AllDigits(r)
  {
    if width == 0 then [] else Pad(n / 10, width - 1) + [DigitChar(n % 10)]
  }

  /** The number a string of decimal digits denotes. */
  function Value(s: string): nat
    requires AllDigits(s)
  {
    if s == [] then 0 else Value(s[..|s| - 1]) * 10 + DigitValue(s[|s| - 1])
  }

  /** Reading a padded field back gives the number, when it fits in the width. */
  lemma {:induction false} PadValue(n: nat, width: nat)
    requires n < Pow10(width)
    ensures Value(Pad(n, width)) == n
  {
    if width > 0 {
      var p := Pad(n / 10, width - 1);
      assert n / 10 < Pow10(width - 1);
      PadValue(n / 10, width - 1);
      assert (p + [DigitChar(n % 10)])[..width - 1] == p;
      assert DigitValue(DigitChar(n % 10)) == n % 10;
    }
  }

  /** `yyyy/MM/dd`: the day directory before `Paths.get`. */
  function DayText(d: Date): string {
    Pad(d.year, 4) + "/" + Pad(d.month, 2) + "/" + Pad(d.day, 2)
  }

  /** `yyyy/MM`: the month directory before `Paths.get`. */
  function MonthText(d: Date): string {
    Pad(d.year, 4) + "/" + Pad(d.month, 2)
  }

  /** `Paths.get(text).toString()`: each "/" becomes the platform separator. */
  function PlatformPath(text: string, sep: char): string {
    MapChar(text, '/', sep)
  }

  /** The local backend's relative path: the day directory on this platform. */
  function DayDirectory(d: Date, sep: char): string {
    PlatformPath(DayText(d), sep)
  }

  /** The cloud backend's relative path: the month directory on this platform. */
  function MonthDirectory(d: Date, sep: char): string {
    PlatformPath(MonthText(d), sep)
  }

  /** The layout of a day directory: ten characters, the separator at 4 and 7,
      digits everywhere else. */
  lemma DayDirectoryShape(d: Date, sep: char)
    ensures var r := DayDirectory(d, sep);
      |r| == 10 && r[4] == sep && r[7] == sep &&
      AllDigits(r[..4]) && AllDigits(r[5..7]) && AllDigits(r[8..])
  {
    var t := DayText(d);
    var r := DayDirectory(d, sep);
    assert t[4] == '/' && t[7] == '/';
    forall i | 0 <= i < 10 && i != 4 && i != 7 ensures r[i] == t[i] && IsDigit(t[i]) {
      if i < 4 {
        assert t[i] == Pad(d.year, 4)[i];
      } else if i < 7 {
        assert t[i] == Pad(d.month, 2)[i - 5];
      } else {
        assert t[i] == Pad(d.day, 2)[i - 8];
      }
    }
    assert forall i :: 0 <= i < 4 ==> r[..4][i] == r[i];
    assert forall i :: 0 <= i < 2 ==> r[5..7][i] == r[5 + i];
    assert forall i :: 0 <= i < 2 ==> r[8..][i] == r[8 + i];
  }

  /** Reads the date back out of a day directory, whatever the separator. */
  function ReadDay(dir: string): Date
    requires |dir| == 10 && AllDigits(dir[..4]) && AllDigits(dir[5..7]) && AllDigits(dir[8..])
  {
    Date(Value(dir[..4]), Value(dir[5..7]), Value(dir[8..]))
  }

  /** The day directory determines the date it was made from: distinct days are
      stored under distinct directories. */
  lemma DayDirectoryRoundTrip(d: Date, sep: char)
    requires d.Valid()
    ensures var r := DayDirectory(d, sep);
      |r| == 10 && AllDigits(r[..4]) && AllDigits(r[5..7]) && AllDigits(r[8..]) && ReadDay(r) == d
  {
    DayDirectoryShape(d, sep);
    var r := DayDirectory(d, sep);
    assert r[..4] == Pad(d.year, 4);
    assert r[5..7] == Pad(d.month, 2);
    assert r[8..] == Pad(d.day, 2);
    assert Pow10(4) == 10000 && Pow10(2) == 100;
    PadValue(d.year, 4);
    PadValue(d.month, 2);
    PadValue(d.day, 2);
  }

  /** The month directory is the first seven characters of the day directory. */
  lemma MonthDirectoryIsPrefixOfDay(d: Date, sep: char)
    ensures MonthDirectory(d, sep) == DayDirectory(d, sep)[..7]
  {
    assert MonthText(d) == DayText(d)[..7];
  }

  /** A date directory holds no backslash and no empty segment before `Paths.get`. */
  lemma DateTextsArePlain(d: Date)
    ensures '\\' !in DayText(d) && !Contains(DayText(d), "//")
    ensures '\\' !in MonthText(d) && !Contains(MonthText(d), "//")
  {
    DayDirectoryShape(d, '/');
    var t := DayText(d);
    var m := MonthText(d);
    assert m == t[..7];
    assert DayDirectory(d, '/') == t by {
      assert forall i :: 0 <= i < |t| ==> t[i] != '/' ==> DayDirectory(d, '/')[i] == t[i];
    }
    assert forall i :: 0 <= i < 10 && i != 4 && i != 7 ==> IsDigit(t[i]) by {
      assert forall i :: 0 <= i < 4 ==> t[..4][i] == t[i];
      assert forall i :: 0 <= i < 2 ==> t[5..7][i] == t[5 + i];
      assert forall i :: 0 <= i < 2 ==> t[8..][i] == t[8 + i];
    }
    forall j ensures !OccursAt(t, "//", j) {
      if 0 <= j && j + 2 <= |t| {
        assert t[j..j + 2][0] == t[j] && t[j..j + 2][1] == t[j + 1];
      }
    }
    forall j ensures !OccursAt(m, "//", j) {
      if 0 <= j && j + 2 <= |m| {
        assert m[j..j + 2][0] == t[j] && m[j..j + 2][1] == t[j + 1];
      }
    }
  }

  /** The file name a backend generates: `UUID + "." + ext`. */
  function GeneratedName(uuid: string, ext: string): string {
    uuid + "." + ext
  }

  /** Two uploads with different UUIDs of the same length (a UUID's text form is
      always 36 characters) get different generated names, whatever the extensions. */
  lemma GeneratedNamesDiffer(u1: string, u2: string, e1: string, e2: string)
    requires |u1| == |u2| && u1 != u2
    ensures GeneratedName(u1, e1) != GeneratedName(u2, e2)
  {
    assert GeneratedName(u1, e1)[..|u1|] == u1;
    assert GeneratedName(u2, e2)[..|u2|] == u2;
  }

  /** The extension of a name: what follows its last ".", or "" when it has none
      (`FilenameUtils.getExtension` on a name without directory separators). */
  function Extension(name: string): (r: string)
    ensures '.' !in name ==> r == ""
    ensures '.' in name ==>
      ('.' !in r && |r| < |name| && name[|name| - |r| - 1] == '.' && name[|name| - |r|..] == r)
    decreases |name|
  {
    if |name| == 0 then ""
    else
      var last := name[|name| - 1];
      var init := name[..|name| - 1];
      assert name == init + [last];
      if last == '.' then ""
      else if '.' in init then Extension(init) + [last]
      else ""
  }
}
