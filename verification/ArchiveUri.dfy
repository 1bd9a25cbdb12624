/** Printer and parser of archive URIs: `s3://<bucket>/<family>/<YYYY>/<MM>/<DD>/<sha256>.<ext>`. */
module ArchiveUri {
  import opened Wrappers
  import opened Text
  import opened Calendar

  datatype Coord = Coord(bucket: string, family: string, date: Date, sha256: string, extension: string)

  // ---- Character classes ----

  predicate LowerAlnum(c: char) {
    'a' <= c <= 'z' || '0' <= c <= '9'
  }

  predicate BucketOk(b: string) {
    && 2 <= |b| <= 63 && LowerAlnum(b[0])
    && forall c | c in b :: LowerAlnum(c) || c == '.' || c == '-'
  }

  predicate FamilyOk(f: string) {
    |f| > 0 && forall c | c in f :: 'a' <= c <= 'z' || c == '_'
  }

  predicate KnownFamily(f: string) {
    f == "knesset" || f == "gov_il" || f == "elections"
  }

  predicate DigestOk(s: string) {
    |s| == 64 && forall c | c in s :: '0' <= c <= '9' || 'a' <= c <= 'f'
  }

  predicate ExtensionOk(e: string) {
    |e| > 0 && forall c | c in e :: LowerAlnum(c)
  }

  /** The decimal value of a character, or -1. Python's `\d` and `int` accept digits of every script. */
  type DigitTable = char -> int

  ghost predicate GoodDigits(dv: DigitTable) {
    && (forall c: char :: -1 <= dv(c) <= 9)
    && (forall c: char :: c as int < 128 ==> dv(c) == if '0' <= c <= '9' then c as int - '0' as int else -1)
  }

  predicate DigitsOk(dv: DigitTable, s: string, width: nat) {
    |s| == width && forall c | c in s :: dv(c) >= 0
  }

  predicate Ascii(s: string) {
    forall c | c in s :: c as int < 128
  }

  // ---- Segments ----

  function Split(s: string): (parts: seq<string>)
    ensures |parts| > 0
  {
    if s == "" then [""]
    else
      var rest := Split(s[1..]);
      if s[0] == '/' then [""] + rest else [[s[0]] + rest[0]] + rest[1..]
  }

  function Join(parts: seq<string>): string
    requires |parts| > 0
  {
    if |parts| == 1 then parts[0] else parts[0] + "/" + Join(parts[1..])
  }

  lemma {:induction false} JoinOfSplit(s: string)
    ensures Join(Split(s)) == s
  {
    if s != "" {
      var rest := Split(s[1..]);
      JoinOfSplit(s[1..]);
      var parts := Split(s);
      if s[0] == '/' {
        assert parts[1..] == rest;
        assert Join(parts) == "" + "/" + s[1..] == s;
      } else {
        assert parts[1..] == rest[1..];
        assert Join(parts) == [s[0]] + Join(rest) == s;
      }
    }
  }

  lemma {:induction false} SplitAppend(a: string, b: string)
    ensures Split(a + "/" + b) == Split(a) + Split(b)
  {
    if a == "" {
      assert (a + "/" + b)[1..] == b;
    } else {
      assert (a + "/" + b)[1..] == a[1..] + "/" + b;
      SplitAppend(a[1..], b);
    }
  }

  lemma {:induction false} SplitWhole(s: string)
    ensures Split(s) == [s] <==> '/' !in s
    ensures |Split(s)| == 1 ==> Split(s) == [s]
    ensures forall part | part in Split(s) :: '/' !in part
  {
    if s != "" {
      SplitWhole(s[1..]);
      var rest := Split(s[1..]);
      assert s == [s[0]] + s[1..];
      forall part | part in Split(s) ensures '/' !in part {
        assert part == "" || part in rest || part == [s[0]] + rest[0];
      }
    }
  }

  lemma {:induction false} SplitOfJoin(parts: seq<string>)
    requires |parts| > 0 && forall part | part in parts :: '/' !in part
    ensures Split(Join(parts)) == parts
  {
    SplitWhole(parts[0]);
    if |parts| > 1 {
      assert forall part | part in parts[1..] :: part in parts;
      SplitOfJoin(parts[1..]);
      SplitAppend(parts[0], Join(parts[1..]));
    }
  }

  // ---- The pattern ----

  /** The named groups of the pattern, as text. */
  datatype Groups = Groups(bucket: string, family: string, year: string, month: string, day: string,
                           sha256: string, extension: string)

  predicate GroupsOk(dv: DigitTable, g: Groups) {
    && BucketOk(g.bucket) && FamilyOk(g.family)
    && DigitsOk(dv, g.year, 4) && DigitsOk(dv, g.month, 2) && DigitsOk(dv, g.day, 2)
    && DigestOk(g.sha256) && ExtensionOk(g.extension)
  }

  function Parts(g: Groups): seq<string> {
    [g.bucket, g.family, g.year, g.month, g.day, g.sha256 + "." + g.extension]
  }

  function UriText(g: Groups): string {
    "s3://" + Join(Parts(g))
  }

  /** What the anchored pattern means; `$` also matches before a final line feed. */
  ghost predicate Matches(dv: DigitTable, uri: string, g: Groups) {
    GroupsOk(dv, g) && (uri == UriText(g) || uri == UriText(g) + "\n")
  }

  /** The groups by position: six segments, and a digest of 64 characters before a dot. */
  function Cut(line: string): Option<Groups> {
    if |line| < 5 || line[..5] != "s3://" then None
    else
      var parts := Split(line[5..]);
      if |parts| != 6 || |parts[5]| < 65 || parts[5][64] != '.' then None
      else Some(Groups(parts[0], parts[1], parts[2], parts[3], parts[4], parts[5][..64], parts[5][65..]))
  }

  function WithoutFinalLineFeed(s: string): string {
    if |s| > 0 && s[|s| - 1] == '\n' then s[..|s| - 1] else s
  }

  function MatchUri(dv: DigitTable, uri: string): Option<Groups> {
    match Cut(WithoutFinalLineFeed(uri))
    case None => None
    case Some(g) => if GroupsOk(dv, g) then Some(g) else None
  }

  lemma CutSound(line: string)
    requires Cut(line).Some?
    ensures line == UriText(Cut(line).value)
  {
    var g := Cut(line).value;
    var parts := Split(line[5..]);
    JoinOfSplit(line[5..]);
    assert parts[5] == g.sha256 + "." + g.extension;
    assert parts == Parts(g);
    assert line == line[..5] + line[5..];
  }

  lemma CutComplete(g: Groups)
    requires |g.sha256| == 64 && forall part | part in Parts(g) :: '/' !in part
    ensures Cut(UriText(g)) == Some(g)
  {
    SplitOfJoin(Parts(g));
    assert UriText(g)[5..] == Join(Parts(g)) && UriText(g)[..5] == "s3://";
    var file := g.sha256 + "." + g.extension;
    assert file[..64] == g.sha256 && file[65..] == g.extension;
  }

  lemma PartsHaveNoSlash(dv: DigitTable, g: Groups)
    requires GoodDigits(dv) && GroupsOk(dv, g)
    ensures forall part | part in Parts(g) :: '/' !in part
  {
    assert dv('/') == -1;
  }

  lemma LastOfUri(g: Groups)
    requires ExtensionOk(g.extension)
    ensures |UriText(g)| > 0 && UriText(g)[|UriText(g)| - 1] == g.extension[|g.extension| - 1] != '\n'
  {
    JoinEndsWithLast(Parts(g));
    assert g.extension[|g.extension| - 1] in g.extension;
  }

  lemma {:induction false} JoinEndsWithLast(parts: seq<string>)
    requires |parts| > 0 && |parts[|parts| - 1]| > 0
    ensures |Join(parts)| > 0
    ensures Join(parts)[|Join(parts)| - 1] == parts[|parts| - 1][|parts[|parts| - 1]| - 1]
  {
    if |parts| > 1 {
      JoinEndsWithLast(parts[1..]);
    }
  }

  /** The splitting matcher finds exactly the groups the pattern describes, and they are unique. */
  lemma MatchUriMeaning(dv: DigitTable, uri: string, g: Groups)
    requires GoodDigits(dv)
    ensures MatchUri(dv, uri) == Some(g) <==> Matches(dv, uri, g)
  {
    var line := WithoutFinalLineFeed(uri);
    if Matches(dv, uri, g) {
      LastOfUri(g);
      assert line == UriText(g);
      PartsHaveNoSlash(dv, g);
      CutComplete(g);
    }
    if MatchUri(dv, uri) == Some(g) {
      CutSound(line);
      assert uri == line || uri == line + "\n";
    }
  }

  // ---- Numbers ----

  function Number(dv: DigitTable, s: string): int {
    if s == "" then 0 else 10 * Number(dv, s[..|s| - 1]) + dv(s[|s| - 1])
  }

  lemma {:induction false} NumberInRange(dv: DigitTable, s: string)
    requires GoodDigits(dv) && forall c | c in s :: dv(c) >= 0
    ensures 0 <= Number(dv, s) < Pow10(|s|)
  {
    if s != "" {
      assert s[|s| - 1] in s;
      assert forall c | c in s[..|s| - 1] :: c in s;
      NumberInRange(dv, s[..|s| - 1]);
    }
  }

  lemma {:induction false} NumberOfPad(dv: DigitTable, n: nat, width: nat)
    requires GoodDigits(dv) && n < Pow10(width)
    ensures Number(dv, Pad(n, width)) == n
    ensures DigitsOk(dv, Pad(n, width), width)
  {
    if width > 0 {
      NumberOfPad(dv, n / 10, width - 1);
      var s := Pad(n, width);
      assert s[..width - 1] == Pad(n / 10, width - 1) && s[width - 1] == Digit(n % 10);
      assert Digit(n % 10) as int == '0' as int + n % 10;
      assert s == s[..width - 1] + [s[width - 1]];
    }
  }

  lemma {:induction false} PadOfNumber(dv: DigitTable, s: string)
    requires GoodDigits(dv) && Ascii(s) && forall c | c in s :: dv(c) >= 0
    ensures Number(dv, s) >= 0 && Pad(Number(dv, s), |s|) == s
  {
    if s != "" {
      var front, last := s[..|s| - 1], s[|s| - 1];
      assert last in s && forall c | c in front :: c in s;
      assert s == front + [last];
      PadOfNumber(dv, front);
      DigitOfValue(dv, last);
      PadAppend(dv, front, last);
    }
  }

  lemma NumberOfAppend(dv: DigitTable, front: string, last: char)
    ensures Number(dv, front + [last]) == 10 * Number(dv, front) + dv(last)
  {
    assert (front + [last])[..|front|] == front;
  }

  lemma PadAppend(dv: DigitTable, front: string, last: char)
    requires 0 <= dv(last) < 10 && Digit(dv(last)) == last
    requires Number(dv, front) >= 0 && Pad(Number(dv, front), |front|) == front
    ensures Number(dv, front + [last]) >= 0 && Pad(Number(dv, front + [last]), |front + [last]|) == front + [last]
  {
    NumberOfAppend(dv, front, last);
    PadStep(front, last, Number(dv, front), dv(last), front + [last], Number(dv, front + [last]));
  }

  lemma PadStep(front: string, last: char, n: nat, d: nat, all: string, m: nat)
    requires d < 10 && Pad(n, |front|) == front && Digit(d) == last
    requires all == front + [last] && m == 10 * n + d
    ensures Pad(m, |all|) == all
  {
    TenTimes(n, d);
    assert |all| == |front| + 1 && m / 10 == n && m % 10 == d;
  }

  lemma DigitOfValue(dv: DigitTable, c: char)
    requires GoodDigits(dv) && c as int < 128 && dv(c) >= 0
    ensures dv(c) < 10 && Digit(dv(c)) == c
  {
    assert dv(c) == c as int - '0' as int;
    assert Digit(dv(c)) as int == '0' as int + dv(c);
  }

  lemma TenTimes(n: nat, d: nat)
    requires d < 10
    ensures (10 * n + d) / 10 == n && (10 * n + d) % 10 == d
  {
  }

  // ---- Parsing and printing ----

  datatype ParseError = NotCanonical | UnknownFamily | InvalidDate

  function Parse(dv: DigitTable, uri: string): Result<Coord, ParseError> {
    match MatchUri(dv, uri)
    case None => Err(NotCanonical)
    case Some(g) =>
      var y, m, d := Number(dv, g.year), Number(dv, g.month), Number(dv, g.day);
      if !KnownFamily(g.family) then Err(UnknownFamily)
      else if y < 0 || m < 0 || d < 0 || !ValidDate(Date(y, m, d)) then Err(InvalidDate)
      else Ok(Coord(g.bucket, g.family, Date(y, m, d), g.sha256, g.extension))
  }

  function Printed(c: Coord): Groups {
    Groups(c.bucket, c.family, Pad(c.date.year, 4), Pad(c.date.month, 2), Pad(c.date.day, 2), c.sha256, c.extension)
  }

  function Print(c: Coord): string {
    UriText(Printed(c))
  }

  /** A coordinate whose fields are all as the parser would return them. */
  ghost predicate Canonical(c: Coord) {
    BucketOk(c.bucket) && KnownFamily(c.family) && ValidDate(c.date) && DigestOk(c.sha256) && ExtensionOk(c.extension)
  }

  lemma PrintedGroups(dv: DigitTable, c: Coord)
    requires GoodDigits(dv) && Canonical(c)
    ensures GroupsOk(dv, Printed(c))
    ensures Number(dv, Printed(c).year) == c.date.year
    ensures Number(dv, Printed(c).month) == c.date.month && Number(dv, Printed(c).day) == c.date.day
  {
    PrintedDate(dv, c.date);
    KnownFamilyMatches(c.family);
  }

  lemma KnownFamilyMatches(f: string)
    requires KnownFamily(f)
    ensures FamilyOk(f)
  {
  }

  lemma PrintedDate(dv: DigitTable, d: Date)
    requires GoodDigits(dv) && ValidDate(d)
    ensures DigitsOk(dv, Pad(d.year, 4), 4) && Number(dv, Pad(d.year, 4)) == d.year
    ensures DigitsOk(dv, Pad(d.month, 2), 2) && Number(dv, Pad(d.month, 2)) == d.month
    ensures DigitsOk(dv, Pad(d.day, 2), 2) && Number(dv, Pad(d.day, 2)) == d.day
  {
    SmallPowers();
    NumberOfPad(dv, d.year, 4);
    NumberOfPad(dv, d.month, 2);
    NumberOfPad(dv, d.day, 2);
  }

  lemma SmallPowers()
    ensures Pow10(2) == 100 && Pow10(4) == 10000
  {
  }

  /** Parsing what was printed gives the coordinate back, and so it does with a line feed after it. */
  lemma ParsePrinted(dv: DigitTable, c: Coord)
    requires GoodDigits(dv) && Canonical(c)
    ensures Parse(dv, Print(c)) == Ok(c)
    ensures Parse(dv, Print(c) + "\n") == Ok(c)
  {
    PrintedGroups(dv, c);
    MatchUriMeaning(dv, Print(c), Printed(c));
    MatchUriMeaning(dv, Print(c) + "\n", Printed(c));
  }

  lemma DistinctCoordsDistinctUris(dv: DigitTable, c: Coord, d: Coord)
    requires GoodDigits(dv) && Canonical(c) && Canonical(d) && Print(c) == Print(d)
    ensures c == d
  {
    ParsePrinted(dv, c);
    ParsePrinted(dv, d);
  }

  lemma ParsedIsCanonical(dv: DigitTable, uri: string, c: Coord)
    requires GoodDigits(dv) && Parse(dv, uri) == Ok(c)
    ensures Canonical(c)
  {
    MatchUriMeaning(dv, uri, MatchUri(dv, uri).value);
  }

  lemma {:induction false} JoinAscii(parts: seq<string>)
    requires |parts| > 0 && forall part | part in parts :: Ascii(part)
    ensures Ascii(Join(parts))
  {
    assert parts[0] in parts;
    if |parts| > 1 {
      assert forall part | part in parts[1..] :: part in parts;
      JoinAscii(parts[1..]);
    }
  }

  lemma {:induction false} PartOfJoin(parts: seq<string>, i: nat, c: char)
    requires i < |parts| && c in parts[i]
    ensures c in Join(parts)
  {
    if |parts| > 1 && i > 0 {
      PartOfJoin(parts[1..], i - 1, c);
    }
  }

  lemma PrintIsAscii(c: Coord)
    requires Canonical(c)
    ensures Ascii(Print(c)) && |Print(c)| > 0 && Print(c)[|Print(c)| - 1] != '\n'
  {
    PartsAreAscii(c);
    JoinAscii(Parts(Printed(c)));
    LastOfUri(Printed(c));
    assert Ascii("s3://");
  }

  lemma PartsAreAscii(c: Coord)
    requires Canonical(c)
    ensures forall part | part in Parts(Printed(c)) :: Ascii(part)
  {
    var g := Printed(c);
    KnownFamilyMatches(c.family);
    assert Ascii(g.year) && Ascii(g.month) && Ascii(g.day);
    assert Ascii(g.bucket) && Ascii(g.family) && Ascii(g.sha256 + "." + g.extension);
  }

  /**
   * The documentation promises that every URI that parses is rebuilt from its coordinate. That holds
   * exactly for ASCII URIs that do not end in a line feed.
   */
  lemma PrintParsed(dv: DigitTable, uri: string, c: Coord)
    requires GoodDigits(dv) && Parse(dv, uri) == Ok(c)
    ensures Print(c) == uri <==> Ascii(uri) && uri[|uri| - 1..] != "\n"
  {
    var g := MatchUri(dv, uri).value;
    MatchUriMeaning(dv, uri, g);
    ParsedIsCanonical(dv, uri, c);
    PrintIsAscii(c);
    LastOfUri(g);
    if Ascii(uri) && uri[|uri| - 1..] != "\n" {
      assert uri == UriText(g) by {
        assert (UriText(g) + "\n")[|UriText(g)|..] == "\n";
      }
      AsciiGroups(g);
      PadOfNumber(dv, g.year);
      PadOfNumber(dv, g.month);
      PadOfNumber(dv, g.day);
    }
  }

  /** A URI that parses and is not the print of its coordinate. */
  lemma RoundTripFails(dv: DigitTable) returns (uri: string, c: Coord)
    requires GoodDigits(dv)
    ensures Parse(dv, uri) == Ok(c) && Print(c) != uri
  {
    c := Coord("civic-archive", "knesset", Date(2024, 1, 15), seq(64, _ => 'a'), "html");
    uri := Print(c) + "\n";
    assert BucketOk("civic-archive") && ExtensionOk("html");
    ParsePrinted(dv, c);
    assert |uri| == |Print(c)| + 1;
  }

  lemma AsciiGroups(g: Groups)
    requires Ascii(UriText(g))
    ensures Ascii(g.year) && Ascii(g.month) && Ascii(g.day)
  {
    forall c | c in Join(Parts(g)) ensures c as int < 128 {
      assert c in UriText(g);
    }
    forall c | c in g.year ensures c as int < 128 {
      PartOfJoin(Parts(g), 2, c);
    }
    forall c | c in g.month ensures c as int < 128 {
      PartOfJoin(Parts(g), 3, c);
    }
    forall c | c in g.day ensures c as int < 128 {
      PartOfJoin(Parts(g), 4, c);
    }
  }

  /** The groups of `c` with the last digit of the day written in another script. */
  function Transcribed(c: Coord, digit: char): Groups {
    Printed(c).(day := Pad(c.date.day, 2)[..1] + [digit])
  }

  lemma TranscribedDay(dv: DigitTable, c: Coord, digit: char)
    requires GoodDigits(dv) && Canonical(c) && dv(digit) == c.date.day % 10
    ensures DigitsOk(dv, Transcribed(c, digit).day, 2) && Number(dv, Transcribed(c, digit).day) == c.date.day
  {
    var day, foreign := Pad(c.date.day, 2), Transcribed(c, digit).day;
    PrintedGroups(dv, c);
    assert day[1] == Digit(c.date.day % 10) && dv(day[1]) == c.date.day % 10;
    assert foreign[..1] == day[..1] && foreign[1] == digit;
    forall x | x in foreign ensures dv(x) >= 0 {
      assert x == digit || (x == day[0] && x in day);
    }
  }

  /** A digit of another script in the day is accepted as well: two URIs, one coordinate. */
  lemma ForeignDigitAccepted(dv: DigitTable, c: Coord, digit: char)
    requires GoodDigits(dv) && Canonical(c)
    requires digit as int >= 128 && dv(digit) == c.date.day % 10
    ensures Parse(dv, UriText(Transcribed(c, digit))) == Ok(c) && Print(c) != UriText(Transcribed(c, digit))
  {
    var g := Transcribed(c, digit);
    PrintedGroups(dv, c);
    TranscribedDay(dv, c, digit);
    assert GroupsOk(dv, g);
    MatchUriMeaning(dv, UriText(g), g);
    PrintIsAscii(c);
    assert Parts(g)[4][1] == digit;
    PartOfJoin(Parts(g), 4, digit);
    assert digit in UriText(g);
  }

  // ---- Building ----

  type Content = seq<bv8>

  /** A naive timestamp has no UTC date. */
  datatype CapturedAt = Naive | Aware(utcDate: Date)

  datatype BuildError = FamilyRejected | NaiveTimestamp | ExtensionRejected

  function NormalizeExtension(lower: string -> string, extension: string): Option<string> {
    var ext := lower(StripLeft(Strip(extension), (c: char) => c == '.'));
    if ExtensionOk(ext) then Some(ext) else None
  }

  /** `bucket` is the configured one and is not checked; `hash` and `lower` are the library functions. */
  function Build(hash: Content -> string, lower: string -> string, bucket: string, family: string,
                 capturedAt: CapturedAt, content: Content, extension: string): Result<string, BuildError>
  {
    if !KnownFamily(family) then Err(FamilyRejected)
    else
      match capturedAt
      case Naive => Err(NaiveTimestamp)
      case Aware(date) =>
        match NormalizeExtension(lower, extension)
        case None => Err(ExtensionRejected)
        case Some(ext) => Ok(Print(Coord(bucket, family, date, hash(content), ext)))
  }

  /** SHA-256 in lowercase hexadecimal. */
  ghost predicate HexDigest(hash: Content -> string) {
    forall content: Content :: DigestOk(hash(content))
  }

  lemma SplitCount(dv: DigitTable, c: Coord)
    requires GoodDigits(dv) && KnownFamily(c.family) && ValidDate(c.date) && DigestOk(c.sha256) && ExtensionOk(c.extension)
    ensures Split(Join(Parts(Printed(c)))) == Split(c.bucket) + Parts(Printed(c))[1..]
  {
    var parts := Parts(Printed(c));
    assert Pow10(2) == 100 && Pow10(4) == 10000;
    SplitAppend(c.bucket, Join(parts[1..]));
    forall part | part in parts[1..] ensures '/' !in part {}
    SplitOfJoin(parts[1..]);
  }

  /**
   * A built URI parses back to the bucket, family, UTC date, digest and normalized extension it was
   * built from, exactly when the configured bucket has the form of a bucket name.
   */
  lemma BuildParses(dv: DigitTable, hash: Content -> string, lower: string -> string, bucket: string, family: string,
                    date: Date, content: Content, extension: string)
    requires GoodDigits(dv) && HexDigest(hash) && ValidDate(date)
    requires Build(hash, lower, bucket, family, Aware(date), content, extension).Ok?
    ensures var uri := Build(hash, lower, bucket, family, Aware(date), content, extension).value;
            if BucketOk(bucket) then
              Parse(dv, uri) == Ok(Coord(bucket, family, date, hash(content), NormalizeExtension(lower, extension).value))
            else
              Parse(dv, uri) == Err(NotCanonical)
  {
    var c := Coord(bucket, family, date, hash(content), NormalizeExtension(lower, extension).value);
    assert DigestOk(hash(content));
    if BucketOk(bucket) {
      ParsePrinted(dv, c);
    } else if MatchUri(dv, Print(c)).Some? {
      var g := MatchUri(dv, Print(c)).value;
      OnlyBucketNamesMatch(dv, c, g);
    }
  }

  lemma OnlyBucketNamesMatch(dv: DigitTable, c: Coord, g: Groups)
    requires GoodDigits(dv) && KnownFamily(c.family) && ValidDate(c.date) && DigestOk(c.sha256) && ExtensionOk(c.extension)
    requires MatchUri(dv, Print(c)) == Some(g)
    ensures BucketOk(c.bucket)
  {
    MatchUriMeaning(dv, Print(c), g);
    LastOfUri(Printed(c));
    LastOfUri(g);
    assert Print(c) == UriText(g);
    assert Print(c)[5..] == Join(Parts(Printed(c))) && UriText(g)[5..] == Join(Parts(g));
    SplitCount(dv, c);
    PartsHaveNoSlash(dv, g);
    SplitOfJoin(Parts(g));
    assert |Split(c.bucket)| == 1;
    SplitWhole(c.bucket);
    assert (Split(c.bucket) + Parts(Printed(c))[1..])[0] == c.bucket;
  }

  /** Normalizing a normalized extension changes nothing. */
  lemma ExtensionNormalizedOnce(lower: string -> string, extension: string)
    requires forall e: string | ExtensionOk(e) :: lower(e) == e
    requires NormalizeExtension(lower, extension).Some?
    ensures var ext := NormalizeExtension(lower, extension).value; NormalizeExtension(lower, ext) == Some(ext)
  {
    PlainExtension(lower, NormalizeExtension(lower, extension).value);
  }

  lemma PlainExtension(lower: string -> string, ext: string)
    requires ExtensionOk(ext) && lower(ext) == ext
    ensures NormalizeExtension(lower, ext) == Some(ext)
  {
    assert ext[0] in ext && ext[|ext| - 1] in ext;
    assert !IsSpace(ext[0]) && !IsSpace(ext[|ext| - 1]);
    StripNothing(ext);
  }

  /** A configured bucket with an upper-case letter: every URI built with it is rejected. */
  lemma UpperCaseBucketFails(dv: DigitTable, hash: Content -> string, lower: string -> string, content: Content)
    requires GoodDigits(dv) && HexDigest(hash) && lower("html") == "html"
    ensures var built := Build(hash, lower, "Archive", "knesset", Aware(Date(2024, 1, 15)), content, "html");
            built.Ok? && Parse(dv, built.value) == Err(NotCanonical)
  {
    assert ExtensionOk("html");
    PlainExtension(lower, "html");
    assert !BucketOk("Archive") by {
      assert "Archive"[0] == 'A';
    }
    BuildParses(dv, hash, lower, "Archive", "knesset", Date(2024, 1, 15), content, "html");
  }

  // ---- The shape ----

  lemma JoinTwo(a: string, parts: seq<string>)
    requires |parts| > 0
    ensures Join([a] + parts) == a + "/" + Join(parts)
  {
    assert ([a] + parts)[1..] == parts;
  }

  lemma JoinDate(y: string, m: string, d: string, file: string)
    ensures Join([y, m, d, file]) == y + "/" + (m + "/" + (d + "/" + file))
  {
    JoinTwo(d, [file]);
    JoinTwo(m, [d, file]);
    JoinTwo(y, [m, d, file]);
    assert [d] + [file] == [d, file] && [m] + [d, file] == [m, d, file] && [y] + [m, d, file] == [y, m, d, file];
  }

  /** A built URI letter by letter. */
  lemma UriShape(c: Coord)
    ensures Print(c) == "s3://" + (c.bucket + "/" + (c.family + "/" + (Pad(c.date.year, 4) + "/" + (Pad(c.date.month, 2) + "/"
                        + (Pad(c.date.day, 2) + "/" + (c.sha256 + "." + c.extension))))))
  {
    var file := c.sha256 + "." + c.extension;
    var tail := [Pad(c.date.year, 4), Pad(c.date.month, 2), Pad(c.date.day, 2), file];
    JoinDate(tail[0], tail[1], tail[2], file);
    JoinTwo(c.family, tail);
    JoinTwo(c.bucket, [c.family] + tail);
    assert Parts(Printed(c)) == [c.bucket] + ([c.family] + tail);
  }

  /** An extension may come with a leading dot. */
  lemma LeadingDotIgnored(lower: string -> string, ext: string)
    requires ExtensionOk(ext) && lower(ext) == ext
    ensures NormalizeExtension(lower, "." + ext) == Some(ext)
  {
    var dotted := "." + ext;
    assert ext[0] in ext && ext[|ext| - 1] in ext && dotted[|dotted| - 1] == ext[|ext| - 1];
    StripNothing(dotted);
    assert dotted[1..] == ext;
    PlainExtension(lower, ext);
  }
}
