/**
 Reading a path back by the conventions of the two collections: the directories and file prefixes that name
 the stream, and the numbers by their position. Nothing here uses the functions that render paths.
 */
module PathReading {
  import opened Common
  import opened Text
  import Calendar
  import Layout
  import Templates
  import Rotation

  /** What a reader makes of a path. */
  datatype Reading = Reading(collector: string, stream: Layout.Stream, year: int, month: int, day: int, hour: int, minute: int, extension: string)

  function IndexOf(s: string, c: char): (i: nat)
    ensures i <= |s|
  {
    if s == "" || s[0] == c then 0 else 1 + IndexOf(s[1..], c)
  }

  /** What stands before the first `c`. */
  function Upto(s: string, c: char): string {
    s[..IndexOf(s, c)]
  }

  /** What stands after the first `c`. */
  function Past(s: string, c: char): string {
    if IndexOf(s, c) < |s| then s[IndexOf(s, c) + 1..] else ""
  }

  function LastIndexOf(s: string, c: char): (i: nat)
    ensures i <= |s|
  {
    if s == "" then 0 else if s[|s| - 1] == c then |s| - 1 else
      var i := LastIndexOf(s[..|s| - 1], c);
      if i == |s| - 1 then |s| else i
  }

  /** The last component of a path. */
  function LastOf(path: string): string {
    if LastIndexOf(path, '/') < |path| then path[LastIndexOf(path, '/') + 1..] else path
  }

  /** The directory a path lies in. */
  function DirectoryOf(path: string): string {
    path[..LastIndexOf(path, '/')]
  }

  function ReadNumber(s: string): Option<int> {
    if s != "" && AllDigits(s) then
      var n: int := Value(s);
      Some(n)
    else if |s| > 1 && s[0] == '-' && AllDigits(s[1..]) then
      var n: int := Value(s[1..]);
      Some(-n)
    else None
  }

  /** `directory`/`prefix`.YYYYMMDD.HHMM.`extension` below the directory YYYY.MM of a collector. */
  function ReadFields(month: string, file: string, stream: Layout.Stream, collector: string): Option<Reading> {
    var date, rest := Upto(Past(file, '.'), '.'), Past(Past(file, '.'), '.');
    var time, extension := Upto(rest, '.'), Past(rest, '.');
    if |date| < 5 || |time| != 4 then None
    else
      var n := |date|;
      match (ReadNumber(date[..n - 4]), ReadNumber(date[n - 4..n - 2]), ReadNumber(date[n - 2..]), ReadNumber(time[..2]), ReadNumber(time[2..]))
      case (Some(y), Some(m), Some(d), Some(h), Some(mi)) =>
        if ReadNumber(Upto(month, '.')) == Some(y) && ReadNumber(Past(month, '.')) == Some(m)
        then Some(Reading(collector, stream, y, m, d, h, mi, extension))
        else None
      case _ => None
  }

  function ReadPath(profile: Layout.Profile, path: string): Option<Reading> {
    var file, dir := LastOf(path), DirectoryOf(path);
    match profile
    case RouteViews =>
      var month, collector := LastOf(DirectoryOf(dir)), DirectoryOf(DirectoryOf(dir));
      if LastOf(dir) == "UPDATES" && Upto(file, '.') == "updates" then ReadFields(month, file, Layout.Updates, collector)
      else if LastOf(dir) == "RIBS" && Upto(file, '.') == "rib" then ReadFields(month, file, Layout.Ribs, collector)
      else None
    case Ris =>
      if Upto(file, '.') == "updates" then ReadFields(LastOf(dir), file, Layout.Updates, DirectoryOf(dir))
      else if Upto(file, '.') == "bview" then ReadFields(LastOf(dir), file, Layout.Ribs, DirectoryOf(dir))
      else None
  }

  // ----- Cutting

  lemma {:induction false} FirstCut(a: string, c: char, b: string)
    requires c !in a
    ensures Upto(a + ([c] + b), c) == a && Past(a + ([c] + b), c) == b
  {
    FirstIndex(a, c, b);
    var s := a + ([c] + b);
    assert s[..|a|] == a && s[|a| + 1..] == b;
  }

  lemma {:induction false} FirstIndex(a: string, c: char, b: string)
    requires c !in a
    ensures IndexOf(a + ([c] + b), c) == |a|
  {
    if a != "" {
      assert (a + ([c] + b))[0] == a[0] && (a + ([c] + b))[1..] == a[1..] + ([c] + b);
      FirstIndex(a[1..], c, b);
    }
  }

  lemma {:induction false} NoIndex(b: string, c: char)
    requires c !in b
    ensures LastIndexOf(b, c) == |b|
  {
    if b != "" {
      NoIndex(b[..|b| - 1], c);
    }
  }

  lemma {:induction false} LastIndex(a: string, b: string)
    requires '/' !in b
    ensures LastIndexOf(a + "/" + b, '/') == |a|
  {
    var s := a + "/" + b;
    if b != "" {
      var n := |b| - 1;
      assert s[|s| - 1] == b[n] && s[..|s| - 1] == a + "/" + b[..n];
      LastIndex(a, b[..n]);
    } else {
      assert s[|s| - 1] == '/';
    }
  }

  lemma {:induction false} LastCut(a: string, b: string)
    requires '/' !in b
    ensures LastOf(a + "/" + b) == b && DirectoryOf(a + "/" + b) == a
  {
    LastIndex(a, b);
    var s := a + "/" + b;
    assert s[..|a|] == a && s[|a| + 1..] == b;
  }

  // ----- Numbers

  lemma {:induction false} ReadsPadded(w: nat, n: nat)
    requires w > 0
    ensures ReadNumber(Padded(w, n)) == Some(n)
  {
    PaddedValue(w, n);
    hide Padded, Value;
  }

  lemma {:induction false} ReadsYear(y: int)
    ensures ReadNumber(Layout.YearField(y)) == Some(y)
  {
    if y < 0 {
      assert Layout.YearField(y) == "-" + Padded(3, -y);
      PaddedValue(3, -y);
      hide *;
      ReadsNegative(Padded(3, -y), -y);
    } else {
      ReadsPadded(4, y);
      hide Padded, Value;
    }
  }

  lemma {:induction false} ReadsNegative(p: string, n: nat)
    requires p != "" && AllDigits(p) && Value(p) == n
    ensures ReadNumber("-" + p) == Some(0 - n)
  {
    var s := "-" + p;
    assert s[1..] == p && s[0] == '-' && !IsDigit(s[0]);
    hide Value;
  }

  lemma {:induction false} TwoDigits(n: nat)
    requires n < 100
    ensures |Padded(2, n)| == 2 && ReadNumber(Padded(2, n)) == Some(n)
  {
    assert Power10(2) == 100;
    PaddedWidth(2, n);
    ReadsPadded(2, n);
  }

  // ----- The fields

  lemma {:induction false} PadHasNo(w: nat, n: nat)
    ensures '/' !in Padded(w, n) && '.' !in Padded(w, n)
  {
    hide Padded;
  }

  /** Reading gives back the fields a file name was made of. */
  lemma {:induction false} FieldsReadBack(prefix: string, c: Layout.Clock, ext: string, stream: Layout.Stream, collector: string)
    requires Calendar.ValidDate(c.date) && c.hour < 24 && c.minute < 60 && '.' !in prefix
    ensures ReadFields(Layout.YearMonth(c), prefix + ("." + Dated(c, ext)), stream, collector)
            == Some(Reading(collector, stream, c.date.year, c.date.month, c.date.day, c.hour, c.minute, ext))
  {
    var y, m, d, h, mi := Layout.YearField(c.date.year), Padded(2, c.date.month), Padded(2, c.date.day), Padded(2, c.hour), Padded(2, c.minute);
    Layout.YearFieldPlain(c.date.year);
    PadHasNo(2, c.date.month);
    PadHasNo(2, c.hour);
    PadHasNo(2, c.minute);
    Layout.YmdPlain(c);
    DateFits(c.date);
    TwoDigits(c.date.month);
    TwoDigits(c.date.day);
    TwoDigits(c.hour);
    TwoDigits(c.minute);
    ReadsYear(c.date.year);
    YearNotEmpty(c.date.year);
    assert Layout.YearMonth(c) == y + ("." + m) && Layout.Ymd(c) == y + (m + d) && Layout.Hhmm(c) == h + mi;
    hide Layout.YearMonth, Layout.Ymd, Layout.Hhmm, Layout.YearField, Padded, ReadNumber, Upto, Past, Calendar.ValidDate, ReadFields;
    FirstCut(y, '.', m);
    FirstCut(prefix, '.', Layout.Ymd(c) + ("." + (Layout.Hhmm(c) + ("." + ext))));
    FirstCut(Layout.Ymd(c), '.', Layout.Hhmm(c) + ("." + ext));
    FirstCut(Layout.Hhmm(c), '.', ext);
    DatePieces(y, m, d);
    TimePieces(h, mi);
    var file := prefix + ("." + (Layout.Ymd(c) + ("." + (Layout.Hhmm(c) + ("." + ext)))));
    hide *;
    ReadPieces(Layout.YearMonth(c), file, stream, collector, y, m, d, h, mi, c.date.year, c.date.month, c.date.day, c.hour, c.minute, ext);
  }

  /** What `ReadFields` returns, given the pieces it cuts. */
  lemma {:induction false} ReadPieces(
    month: string, file: string, stream: Layout.Stream, collector: string,
    y: string, m: string, d: string, h: string, mi: string, year: int, mo: int, day: int, hour: int, minute: int, ext: string)
    requires y != "" && |m| == 2 && |d| == 2 && |h| == 2 && |mi| == 2
    requires Upto(month, '.') == y && Past(month, '.') == m
    requires Upto(Past(file, '.'), '.') == y + (m + d)
    requires Upto(Past(Past(file, '.'), '.'), '.') == h + mi && Past(Past(Past(file, '.'), '.'), '.') == ext
    requires ReadNumber(y) == Some(year) && ReadNumber(m) == Some(mo) && ReadNumber(d) == Some(day)
    requires ReadNumber(h) == Some(hour) && ReadNumber(mi) == Some(minute)
    ensures ReadFields(month, file, stream, collector) == Some(Reading(collector, stream, year, mo, day, hour, minute, ext))
  {
    DatePieces(y, m, d);
    TimePieces(h, mi);
    hide ReadNumber, Upto, Past;
  }

  lemma {:induction false} DateFits(d: Calendar.Date)
    requires Calendar.ValidDate(d)
    ensures d.month < 100 && d.day < 100
  {
  }

  lemma {:induction false} YearNotEmpty(y: int)
    ensures Layout.YearField(y) != ""
  {
  }

  lemma {:induction false} DatePieces(y: string, m: string, d: string)
    requires |m| == 2 && |d| == 2
    ensures var s, n := y + (m + d), |y + (m + d)|;
            n == |y| + 4 && s[..n - 4] == y && s[n - 4..n - 2] == m && s[n - 2..] == d
  {
  }

  lemma {:induction false} TimePieces(h: string, mi: string)
    requires |h| == 2 && |mi| == 2
    ensures (h + mi)[..2] == h && (h + mi)[2..] == mi
  {
  }

  /** The extension by which a reader knows the compression. */
  function ExtensionFor(c: Layout.Compression): string {
    match c
    case Gzip => "gz"
    case Bzip2 => "bz2"
    case Zstd => "zst"
  }

  // ----- Every built-in path reads back as its stream and its minute

  lemma {:induction false} NamesSpelled()
    ensures Layout.Stem(Layout.RouteViews, Layout.Updates) == "UPDATES/updates." && Layout.Stem(Layout.RouteViews, Layout.Ribs) == "RIBS/rib."
    ensures Layout.Stem(Layout.Ris, Layout.Updates) == "updates." && Layout.Stem(Layout.Ris, Layout.Ribs) == "bview."
    ensures forall c :: Layout.Extension(c) == ExtensionFor(c)
  {
  }

  lemma {:induction false} Assoc(a: string, b: string, c: string)
    ensures a + b + c == a + (b + c)
  {
  }

  /** Date, time and extension as they stand in a file name. */
  function Dated(c: Layout.Clock, ext: string): string
    requires Calendar.ValidDate(c.date)
  {
    Layout.Ymd(c) + ("." + (Layout.Hhmm(c) + ("." + ext)))
  }

  lemma {:induction false} PathUnfolds(cfg: Layout.Config, stream: Layout.Stream, c: Layout.Clock)
    requires Calendar.ValidDate(c.date)
    ensures Layout.RelativePath(cfg, stream, c)
            == cfg.collector + "/" + (Layout.YearMonth(c) + "/" + (Layout.Stem(cfg.profile, stream) + Dated(c, Layout.Extension(cfg.compression))))
  {
    var ext := Layout.Extension(cfg.compression);
    Assoc(Layout.Hhmm(c), ".", ext);
    Assoc(Layout.Ymd(c), ".", Layout.Hhmm(c) + "." + ext);
    Assoc(cfg.collector, "/", Layout.YearMonth(c) + "/" + Layout.FileName(Layout.Stem(cfg.profile, stream), c, ext));
    Assoc(Layout.YearMonth(c), "/", Layout.FileName(Layout.Stem(cfg.profile, stream), c, ext));
    hide Layout.Ymd, Layout.Hhmm, Layout.YearMonth, Layout.Stem, Layout.Extension, Calendar.ValidDate;
  }

  /** The directories and the file of a path of each kind. */
  lemma {:induction false} PathPieces(cfg: Layout.Config, stream: Layout.Stream, c: Layout.Clock)
    requires Calendar.ValidDate(c.date)
    ensures var name, month := Dated(c, ExtensionFor(cfg.compression)), cfg.collector + "/" + Layout.YearMonth(c);
            var path := Layout.RelativePath(cfg, stream, c);
            && (cfg.profile == Layout.RouteViews && stream == Layout.Updates ==> path == month + "/" + "UPDATES" + "/" + ("updates" + ("." + name)))
            && (cfg.profile == Layout.RouteViews && stream == Layout.Ribs ==> path == month + "/" + "RIBS" + "/" + ("rib" + ("." + name)))
            && (cfg.profile == Layout.Ris && stream == Layout.Updates ==> path == month + "/" + ("updates" + ("." + name)))
            && (cfg.profile == Layout.Ris && stream == Layout.Ribs ==> path == month + "/" + ("bview" + ("." + name)))
  {
    hide *;
    PathUnfolds(cfg, stream, c);
    NamesSpelled();
    JoinedPath(cfg.collector, Layout.YearMonth(c), Dated(c, ExtensionFor(cfg.compression)));
  }

  lemma {:induction false} JoinedPath(collector: string, ym: string, t: string)
    ensures collector + "/" + (ym + "/" + ("UPDATES/updates." + t)) == collector + "/" + ym + "/" + "UPDATES" + "/" + ("updates" + ("." + t))
    ensures collector + "/" + (ym + "/" + ("RIBS/rib." + t)) == collector + "/" + ym + "/" + "RIBS" + "/" + ("rib" + ("." + t))
    ensures collector + "/" + (ym + "/" + ("updates." + t)) == collector + "/" + ym + "/" + ("updates" + ("." + t))
    ensures collector + "/" + (ym + "/" + ("bview." + t)) == collector + "/" + ym + "/" + ("bview" + ("." + t))
  {
    assert "UPDATES/updates." == "UPDATES" + "/" + "updates" + "." && "RIBS/rib." == "RIBS" + "/" + "rib" + ".";
    assert "updates." == "updates" + "." && "bview." == "bview" + ".";
  }

  lemma {:induction false} DatedHasNoSlash(c: Layout.Clock, k: Layout.Compression)
    requires Calendar.ValidDate(c.date)
    ensures '/' !in Dated(c, ExtensionFor(k)) && '/' !in Layout.YearMonth(c)
  {
    Layout.YmdPlain(c);
    PadHasNo(2, c.hour);
    PadHasNo(2, c.minute);
    PadHasNo(2, c.date.month);
    Layout.YearFieldPlain(c.date.year);
    hide Layout.Ymd, Layout.YearField, Padded, Calendar.ValidDate;
    assert '/' !in ExtensionFor(k);
  }

  lemma {:induction false} NoSlashIn(prefix: string, name: string)
    requires '/' !in prefix && '/' !in name
    ensures '/' !in prefix + ("." + name)
  {
  }

  lemma {:induction false} RouteViewsReads(collector: string, ym: string, name: string, r: Reading)
    requires '/' !in ym && '/' !in name
    ensures ReadFields(ym, "updates" + ("." + name), Layout.Updates, collector) == Some(r) ==>
              ReadPath(Layout.RouteViews, collector + "/" + ym + "/" + "UPDATES" + "/" + ("updates" + ("." + name))) == Some(r)
    ensures ReadFields(ym, "rib" + ("." + name), Layout.Ribs, collector) == Some(r) ==>
              ReadPath(Layout.RouteViews, collector + "/" + ym + "/" + "RIBS" + "/" + ("rib" + ("." + name))) == Some(r)
  {
    hide *;
    NoSlashIn("updates", name);
    NoSlashIn("rib", name);
    FirstCut("updates", '.', name);
    FirstCut("rib", '.', name);
    LastCut(collector, ym);
    LastCut(collector + "/" + ym, "UPDATES");
    LastCut(collector + "/" + ym, "RIBS");
    LastCut(collector + "/" + ym + "/" + "UPDATES", "updates" + ("." + name));
    LastCut(collector + "/" + ym + "/" + "RIBS", "rib" + ("." + name));
    ReadPathUnfolds(Layout.RouteViews, collector + "/" + ym + "/" + "UPDATES" + "/" + ("updates" + ("." + name)));
    ReadPathUnfolds(Layout.RouteViews, collector + "/" + ym + "/" + "RIBS" + "/" + ("rib" + ("." + name)));
  }

  lemma {:induction false} RisReads(collector: string, ym: string, name: string, r: Reading)
    requires '/' !in ym && '/' !in name
    ensures ReadFields(ym, "updates" + ("." + name), Layout.Updates, collector) == Some(r) ==>
              ReadPath(Layout.Ris, collector + "/" + ym + "/" + ("updates" + ("." + name))) == Some(r)
    ensures ReadFields(ym, "bview" + ("." + name), Layout.Ribs, collector) == Some(r) ==>
              ReadPath(Layout.Ris, collector + "/" + ym + "/" + ("bview" + ("." + name))) == Some(r)
  {
    hide *;
    NoSlashIn("updates", name);
    NoSlashIn("bview", name);
    FirstCut("updates", '.', name);
    FirstCut("bview", '.', name);
    LastCut(collector, ym);
    LastCut(collector + "/" + ym, "updates" + ("." + name));
    LastCut(collector + "/" + ym, "bview" + ("." + name));
    ReadPathUnfolds(Layout.Ris, collector + "/" + ym + "/" + ("updates" + ("." + name)));
    ReadPathUnfolds(Layout.Ris, collector + "/" + ym + "/" + ("bview" + ("." + name)));
  }

  lemma {:induction false} ReadPathUnfolds(profile: Layout.Profile, path: string)
    ensures var file, dir := LastOf(path), DirectoryOf(path);
            var up := DirectoryOf(dir);
            && (profile == Layout.RouteViews && LastOf(dir) == "UPDATES" && Upto(file, '.') == "updates" ==>
                  ReadPath(profile, path) == ReadFields(LastOf(up), file, Layout.Updates, DirectoryOf(up)))
            && (profile == Layout.RouteViews && LastOf(dir) == "RIBS" && Upto(file, '.') == "rib" ==>
                  ReadPath(profile, path) == ReadFields(LastOf(up), file, Layout.Ribs, DirectoryOf(up)))
            && (profile == Layout.Ris && Upto(file, '.') == "updates" ==>
                  ReadPath(profile, path) == ReadFields(LastOf(dir), file, Layout.Updates, up))
            && (profile == Layout.Ris && Upto(file, '.') == "bview" ==>
                  ReadPath(profile, path) == ReadFields(LastOf(dir), file, Layout.Ribs, up))
  {
    hide ReadFields, LastOf, DirectoryOf, Upto;
  }

  lemma {:induction false} RelativeReadsBack(cfg: Layout.Config, stream: Layout.Stream, c: Layout.Clock)
    requires Calendar.ValidDate(c.date) && c.hour < 24 && c.minute < 60
    ensures ReadPath(cfg.profile, Layout.RelativePath(cfg, stream, c))
            == Some(Reading(cfg.collector, stream, c.date.year, c.date.month, c.date.day, c.hour, c.minute, ExtensionFor(cfg.compression)))
  {
    hide *;
    var ext := ExtensionFor(cfg.compression);
    var name, ym := Dated(c, ext), Layout.YearMonth(c);
    var r := Reading(cfg.collector, stream, c.date.year, c.date.month, c.date.day, c.hour, c.minute, ext);
    PathPieces(cfg, stream, c);
    DatedHasNoSlash(c, cfg.compression);
    FieldsReadBack(if stream == Layout.Updates then "updates" else if cfg.profile == Layout.RouteViews then "rib" else "bview",
                   c, ext, stream, cfg.collector);
    RouteViewsReads(cfg.collector, ym, name, r);
    RisReads(cfg.collector, ym, name, r);
  }

  /**
   The path of every bucket reads back, under the conventions of its collection, as its collector, its stream,
   its compression and the minute in which the bucket starts, in every year.
   */
  lemma {:induction false} PathSaysStreamAndMinute(cfg: Layout.Config, stream: Layout.Stream, start: int) returns (r: Reading)
    ensures ReadPath(cfg.profile, Layout.PathOfBucket(cfg, stream, start)) == Some(r)
    ensures r.collector == cfg.collector && r.stream == stream && r.extension == ExtensionFor(cfg.compression)
    ensures r.month >= 0 && r.day >= 0 && 0 <= r.hour < 24 && 0 <= r.minute < 60
    ensures Calendar.ValidDate(Calendar.Date(r.year, r.month, r.day))
    ensures 86400 * Calendar.DaysFromCivil(Calendar.Date(r.year, r.month, r.day)) + 3600 * r.hour + 60 * r.minute == start - start % 60
  {
    var c := Layout.ClockOf(start);
    Calendar.CivilRoundTrip(start / 86400);
    Layout.ClockValid(start);
    RelativeReadsBack(cfg, stream, c);
    r := Reading(cfg.collector, stream, c.date.year, c.date.month, c.date.day, c.hour, c.minute, ExtensionFor(cfg.compression));
    assert Layout.PathOfBucket(cfg, stream, start) == Layout.RelativePath(cfg, stream, c);
    assert c.date == Calendar.CivilFromDays(start / 86400) && c.hour == start % 86400 / 3600 && c.minute == start % 86400 % 3600 / 60;
    hide *;
    assert Calendar.Date(r.year, r.month, r.day) == c.date;
    MinuteFloor(start);
  }

  lemma {:induction false} MinuteFloor(ts: int)
    ensures 86400 * (ts / 86400) + 3600 * (ts % 86400 / 3600) + 60 * (ts % 86400 % 3600 / 60) == ts - ts % 60
  {
    Layout.MinuteFromFields(ts);
    assert Layout.MinuteOf(ts) == ts / 60;
    hide *;
  }

  lemma {:induction false} SegmentPathIsOfBucket(cfg: Layout.Config, stream: Layout.Stream, ts: int)
    requires Layout.Interval(cfg, stream) > 0
    ensures var interval := if stream == Layout.Updates then cfg.updatesInterval else cfg.ribsInterval;
            interval > 0 && Layout.SegmentPath(cfg, stream, ts) == Layout.PathOfBucket(cfg, stream, ts - ts % interval)
  {
    hide Layout.PathOfBucket;
  }

  /** And the path of a timestamp's segment says the minute in which its bucket starts. */
  lemma {:induction false} SegmentPathSaysBucket(cfg: Layout.Config, stream: Layout.Stream, ts: int) returns (r: Reading)
    requires Layout.Interval(cfg, stream) > 0
    ensures ReadPath(cfg.profile, Layout.SegmentPath(cfg, stream, ts)) == Some(r) && r.stream == stream
    ensures var interval := if stream == Layout.Updates then cfg.updatesInterval else cfg.ribsInterval;
            interval > 0 &&
            (var bucket := ts - ts % interval;
             86400 * Calendar.DaysFromCivil(Calendar.Date(r.year, r.month, r.day)) + 3600 * r.hour + 60 * r.minute == bucket - bucket % 60)
  {
    hide *;
    SegmentPathIsOfBucket(cfg, stream, ts);
    r := PathSaysStreamAndMinute(cfg, stream, ts - ts % (if stream == Layout.Updates then cfg.updatesInterval else cfg.ribsInterval));
  }

  /** The path a rotated segment is renamed to is the root and a relative path that says updates and the bucket. */
  lemma {:induction false} RotatedPathSaysBucket(cfg: Rotation.Config, start: int) returns (rel: string, r: Reading)
    ensures Rotation.PathOf(cfg, start) == cfg.root + "/" + rel
    ensures ReadPath(cfg.profile, rel) == Some(r) && r.stream == Layout.Updates && r.collector == cfg.collector
    ensures 86400 * Calendar.DaysFromCivil(Calendar.Date(r.year, r.month, r.day)) + 3600 * r.hour + 60 * r.minute == start - start % 60
  {
    rel := Layout.PathOfBucket(cfg, Layout.Updates, start);
    assert Rotation.PathOf(cfg, start) == cfg.root + "/" + rel;
    hide *;
    r := PathSaysStreamAndMinute(cfg, Layout.Updates, start);
  }

  // ----- Custom templates

  /**
   Rendering a custom template: refused without the three mandatory tokens, otherwise the seven replacements, by
   the spelling of each token, with texts that read back as the fields of the clock.
   */
  lemma {:induction false} RenderSpelled(template: string, v: Templates.Values) returns (y: string, m: string, d: string, h: string, mi: string)
    requires v.Valid() && v.clock.hour < 24 && v.clock.minute < 60
    ensures ReadNumber(y) == Some(v.clock.date.year) && (0 <= v.clock.date.year <= 9999 ==> |y| == 4)
    ensures |m| == 2 && ReadNumber(m) == Some(v.clock.date.month) && |d| == 2 && ReadNumber(d) == Some(v.clock.date.day)
    ensures |h| == 2 && ReadNumber(h) == Some(v.clock.hour) && |mi| == 2 && ReadNumber(mi) == Some(v.clock.minute)
    ensures Templates.Render(template, v)
            == if Contains(template, "{collector}") && Contains(template, "{yyyymmdd}") && Contains(template, "{hhmm}") then
                 Some(Replace(Replace(Replace(Replace(Replace(Replace(Replace(
                   template, "{collector}", v.collector), "{yyyy}", y), "{mm}", m), "{dd}", d), "{yyyymmdd}", y + m + d), "{hhmm}", h + mi), "{ext}", v.ext))
               else None
  {
    y, m, d := Layout.YearField(v.clock.date.year), Padded(2, v.clock.date.month), Padded(2, v.clock.date.day);
    h, mi := Padded(2, v.clock.hour), Padded(2, v.clock.minute);
    DateFits(v.clock.date);
    TwoDigits(v.clock.date.month);
    TwoDigits(v.clock.date.day);
    TwoDigits(v.clock.hour);
    TwoDigits(v.clock.minute);
    ReadsYear(v.clock.date.year);
    YearWidth(v.clock.date.year);
    TokensSpelled();
    ValuesSpelled(v);
    hide *;
    ChainUnfolds(template, v);
  }

  lemma {:induction false} YearWidth(y: int)
    ensures 0 <= y <= 9999 ==> |Layout.YearField(y)| == 4
  {
    if 0 <= y <= 9999 {
      assert Power10(4) == 10000;
      PaddedWidth(4, y);
    }
  }

  lemma {:induction false} TokensSpelled()
    ensures Templates.TokenText(Templates.Collector) == "{collector}" && Templates.TokenText(Templates.Yyyy) == "{yyyy}"
    ensures Templates.TokenText(Templates.Mm) == "{mm}" && Templates.TokenText(Templates.Dd) == "{dd}"
    ensures Templates.TokenText(Templates.Yyyymmdd) == "{yyyymmdd}" && Templates.TokenText(Templates.HhMm) == "{hhmm}"
    ensures Templates.TokenText(Templates.Ext) == "{ext}"
  {
  }

  lemma {:induction false} ValuesSpelled(v: Templates.Values)
    requires v.Valid()
    ensures Calendar.ValidDate(v.clock.date) && v.clock.date.month >= 0 && v.clock.date.day >= 0
    ensures var y, m, d := Layout.YearField(v.clock.date.year), Padded(2, v.clock.date.month), Padded(2, v.clock.date.day);
            && Templates.ValueOf(Templates.Collector, v) == v.collector && Templates.ValueOf(Templates.Ext, v) == v.ext
            && Templates.ValueOf(Templates.Yyyy, v) == y && Templates.ValueOf(Templates.Mm, v) == m && Templates.ValueOf(Templates.Dd, v) == d
            && Templates.ValueOf(Templates.Yyyymmdd, v) == y + m + d
            && Templates.ValueOf(Templates.HhMm, v) == Padded(2, v.clock.hour) + Padded(2, v.clock.minute)
  {
    hide Padded, Layout.YearField;
    var y, m, d := Layout.YearField(v.clock.date.year), Padded(2, v.clock.date.month), Padded(2, v.clock.date.day);
    assert y + (m + d) == y + m + d;
  }

  lemma {:induction false} ChainUnfolds(s: string, v: Templates.Values)
    requires v.Valid()
    ensures forall t :: Templates.TokenText(t) != ""
    ensures Templates.Render(s, v)
            == if Contains(s, Templates.TokenText(Templates.Collector)) && Contains(s, Templates.TokenText(Templates.Yyyymmdd))
                  && Contains(s, Templates.TokenText(Templates.HhMm)) then
                 Some(Put(Put(Put(Put(Put(Put(Put(s, Templates.Collector, v), Templates.Yyyy, v), Templates.Mm, v), Templates.Dd, v),
                                      Templates.Yyyymmdd, v), Templates.HhMm, v), Templates.Ext, v))
               else None
  {
    hide Replace, Contains, Templates.ValueOf, Templates.TokenText;
  }

  /** One replacement of a token by its value. */
  function Put(s: string, t: Templates.Token, v: Templates.Values): string
    requires v.Valid()
  {
    Replace(s, Templates.TokenText(t), Templates.ValueOf(t, v))
  }
}
