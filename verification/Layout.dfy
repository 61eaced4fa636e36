/** Where a segment lives: bucket alignment and the built-in RouteViews and RIS layouts. */
module Layout {
  import opened Text
  import Calendar

  datatype Stream = Updates | Ribs

  datatype Profile = RouteViews | Ris

  datatype Compression = Gzip | Bzip2 | Zstd

  datatype Config = Config(
    collector: string,
    profile: Profile,
    compression: Compression,
    updatesInterval: nat,
    ribsInterval: nat,
    root: string,
    tmpRoot: string)

  function Extension(c: Compression): string {
    match c
    case Gzip => "gz"
    case Bzip2 => "bz2"
    case Zstd => "zst"
  }

  function Interval(cfg: Config, stream: Stream): nat {
    if stream.Updates? then cfg.updatesInterval else cfg.ribsInterval
  }

  /** What configuration validation demands of the two intervals and the collector name. */
  predicate Validated(cfg: Config) {
    && (exists i :: 0 <= i < |cfg.collector| && cfg.collector[i] != ' ')
    && cfg.updatesInterval > 0 && 3600 % cfg.updatesInterval == 0
    && cfg.ribsInterval > 0 && cfg.ribsInterval % cfg.updatesInterval == 0
  }

  /** Start of the bucket that holds `ts`; Dafny's `%` is Rust's `rem_euclid` here. */
  function AlignedEpoch(ts: int, interval: nat): (start: int)
    requires interval > 0
    ensures start % interval == 0
    ensures start <= ts < start + interval
  {
    AlignedIsMultiple(ts, interval);
    ts - ts % interval
  }

  lemma AlignedIsMultiple(ts: int, interval: nat)
    requires interval > 0
    ensures (ts - ts % interval) % interval == 0
  {
    var q := ts / interval;
    assert ts == interval * q + ts % interval;
    MultipleMod(q, interval);
  }

  lemma SmallMultiple(n: nat, k: int)
    requires 0 < n + n * k && n * k < n
    ensures k == 0
  {
    assert k >= 1 ==> n * k >= n;
    assert k <= -1 ==> n + n * k <= 0;
  }

  lemma MultipleMod(q: int, n: nat)
    requires n > 0
    ensures (n * q) % n == 0
  {
    var x := n * q;
    var p, r := x / n, x % n;
    assert x == n * p + r;
    assert n * (q - p) == r;
    SmallMultiple(n, q - p);
  }

  /** Two bucket starts less than an interval apart are the same bucket. */
  lemma MultiplesApart(a: int, b: int, n: nat)
    requires n > 0 && a % n == 0 && b % n == 0
    requires a - b < n && b - a < n
    ensures a == b
  {
    var p, q := a / n, b / n;
    assert a == n * p && b == n * q;
    assert n * (p - q) == n * p - n * q;
    SmallMultiple(n, p - q);
  }

  /** Aligning is the only way to name the bucket: any bucket start that covers `ts` is its aligned epoch. */
  lemma AlignedUnique(ts: int, start: int, interval: nat)
    requires interval > 0 && start % interval == 0
    requires start <= ts < start + interval
    ensures AlignedEpoch(ts, interval) == start
  {
    MultiplesApart(AlignedEpoch(ts, interval), start, interval);
  }

  lemma AlignedMonotone(s: int, t: int, interval: nat)
    requires interval > 0 && s <= t
    ensures AlignedEpoch(s, interval) <= AlignedEpoch(t, interval)
    ensures AlignedEpoch(s, interval) < AlignedEpoch(t, interval) ==>
              AlignedEpoch(s, interval) + interval <= AlignedEpoch(t, interval)
  {
    var a, b := AlignedEpoch(s, interval), AlignedEpoch(t, interval);
    if b < a + interval {
      if a > b {
        MultiplesApart(a, b, interval);
      } else {
        MultiplesApart(b, a, interval);
      }
    }
  }

  /** Every multiple of `whole` begins a bucket exactly when the interval divides it. */
  lemma {:induction false} DividesIffAligned(interval: nat, whole: nat)
    requires interval > 0
    ensures whole % interval == 0 <==> forall k: int :: AlignedEpoch(whole * k, interval) == whole * k
  {
    if whole % interval == 0 {
      var q := whole / interval;
      forall k: int
        ensures AlignedEpoch(whole * k, interval) == whole * k
      {
        assert whole * k == interval * (q * k) by {
          assert whole == interval * q;
        }
        MultipleMod(q * k, interval);
        hide *;
        AlignedUnique(whole * k, whole * k, interval);
      }
    } else {
      assert whole * 1 == whole;
      assert AlignedEpoch(whole * 1, interval) != whole * 1;
    }
  }

  /**
   What validation is for: the collector has a name, every full hour begins an updates bucket, and so does
   every ribs bucket.
   */
  lemma {:induction false} ValidatedMeans(cfg: Config)
    ensures Validated(cfg) <==>
            && (exists i :: 0 <= i < |cfg.collector| && cfg.collector[i] != ' ')
            && cfg.updatesInterval > 0 && cfg.ribsInterval > 0
            && (forall k: int :: AlignedEpoch(3600 * k, cfg.updatesInterval) == 3600 * k)
            && (forall k: int :: AlignedEpoch(cfg.ribsInterval * k, cfg.updatesInterval) == cfg.ribsInterval * k)
  {
    hide AlignedEpoch;
    if cfg.updatesInterval > 0 {
      DividesIffAligned(cfg.updatesInterval, 3600);
      DividesIffAligned(cfg.updatesInterval, cfg.ribsInterval);
    }
  }

  datatype Clock = Clock(date: Calendar.Date, hour: nat, minute: nat)

  function ClockOf(ts: int): Clock {
    var sod := ts % 86400;
    Clock(Calendar.CivilFromDays(ts / 86400), sod / 3600, sod % 3600 / 60)
  }

  function MinuteOf(ts: int): int {
    ts / 60
  }

  /** Rust's `{:04}` for a year: the sign counts towards the width. */
  function YearField(y: int): string {
    if y < 0 then "-" + Padded(3, -y) else Padded(4, y)
  }

  function YearMonth(c: Clock): string
    requires Calendar.ValidDate(c.date)
  {
    YearField(c.date.year) + "." + Padded(2, c.date.month)
  }

  function Ymd(c: Clock): string
    requires Calendar.ValidDate(c.date)
  {
    YearField(c.date.year) + (Padded(2, c.date.month) + Padded(2, c.date.day))
  }

  function Hhmm(c: Clock): string {
    Padded(2, c.hour) + Padded(2, c.minute)
  }

  /** What comes between the month directory and the date. */
  function Stem(p: Profile, s: Stream): string {
    match (p, s)
    case (RouteViews, Updates) => "UPDATES/updates."
    case (RouteViews, Ribs) => "RIBS/rib."
    case (Ris, Updates) => "updates."
    case (Ris, Ribs) => "bview."
  }

  function FileName(stem: string, c: Clock, ext: string): string
    requires Calendar.ValidDate(c.date)
  {
    stem + (Ymd(c) + "." + (Hhmm(c) + "." + ext))
  }

  function RelativePath(cfg: Config, stream: Stream, c: Clock): string
    requires Calendar.ValidDate(c.date)
  {
    cfg.collector + "/" + (YearMonth(c) + "/" + FileName(Stem(cfg.profile, stream), c, Extension(cfg.compression)))
  }

  /** The relative path of the segment whose bucket holds `ts`. */
  function SegmentPath(cfg: Config, stream: Stream, ts: int): string
    requires Interval(cfg, stream) > 0
  {
    PathOfBucket(cfg, stream, AlignedEpoch(ts, Interval(cfg, stream)))
  }

  function PathOfBucket(cfg: Config, stream: Stream, start: int): string {
    Calendar.CivilRoundTrip(start / 86400);
    RelativePath(cfg, stream, ClockOf(start))
  }

  function FinalPath(cfg: Config, rel: string): string {
    cfg.root + "/" + rel
  }

  /** Index at which the last path component begins. */
  function NameStart(rel: string): (k: nat)
    ensures k <= |rel|
    ensures '/' !in rel[k..]
    ensures k > 0 ==> rel[k - 1] == '/'
  {
    if rel == "" || rel[|rel| - 1] == '/' then |rel|
    else
      var k := NameStart(rel[..|rel| - 1]);
      assert rel[k..] == rel[..|rel| - 1][k..] + [rel[|rel| - 1]];
      k
  }

  function TrimDots(s: string): string {
    if s != "" && s[0] == '.' then TrimDots(s[1..]) else s
  }

  function TmpPath(cfg: Config, rel: string): string {
    var k := NameStart(rel);
    cfg.tmpRoot + "/" + (rel[..k] + "." + TrimDots(rel[k..]) + ".tmp")
  }

  // ----- Temporary names

  /** The last component begins after the last slash. */
  lemma {:induction false} NameStartIs(front: string, name: string)
    requires front == "" || front[|front| - 1] == '/'
    requires '/' !in name
    ensures NameStart(front + name) == |front|
  {
    var s := front + name;
    var k := NameStart(s);
    assert forall i :: k <= i < |s| ==> s[i] == s[k..][i - k];
    assert s[|front|..] == name;
  }

  lemma {:induction false} TrimDotsIs(dots: string, core: string)
    requires forall i :: 0 <= i < |dots| ==> dots[i] == '.'
    requires core == "" || core[0] != '.'
    ensures TrimDots(dots + core) == core
  {
    if dots != "" {
      assert (dots + core)[1..] == dots[1..] + core;
      TrimDotsIs(dots[1..], core);
    } else {
      assert dots + core == core;
    }
  }

  /**
   A segment is written beside its directory's place below the temporary root, under its name without leading
   dots between a dot and `.tmp`; it ends up at its relative path below the root.
   */
  lemma {:induction false} PathsSpelled(cfg: Config, front: string, dots: string, core: string)
    requires front == "" || front[|front| - 1] == '/'
    requires forall i :: 0 <= i < |dots| ==> dots[i] == '.'
    requires '/' !in core && (core == "" || core[0] != '.')
    ensures TmpPath(cfg, front + (dots + core)) == cfg.tmpRoot + "/" + front + "." + core + ".tmp"
    ensures FinalPath(cfg, front + (dots + core)) == cfg.root + "/" + front + dots + core
  {
    var rel := front + (dots + core);
    NameStartIs(front, dots + core);
    TrimDotsIs(dots, core);
    assert rel[..|front|] == front && rel[|front|..] == dots + core;
    hide *;
    TmpUnfolds(cfg, rel, front, core);
    JoinTmp(cfg.tmpRoot, cfg.root, front, dots, core);
  }

  lemma {:induction false} TmpUnfolds(cfg: Config, rel: string, front: string, core: string)
    requires rel[..NameStart(rel)] == front && TrimDots(rel[NameStart(rel)..]) == core
    ensures TmpPath(cfg, rel) == cfg.tmpRoot + "/" + (front + "." + core + ".tmp") && FinalPath(cfg, rel) == cfg.root + "/" + rel
  {
    hide NameStart, TrimDots;
  }

  lemma {:induction false} JoinTmp(tmp: string, root: string, front: string, dots: string, core: string)
    ensures tmp + "/" + (front + "." + core + ".tmp") == tmp + "/" + front + "." + core + ".tmp"
    ensures root + "/" + (front + (dots + core)) == root + "/" + front + dots + core
  {
  }

  // ----- The clock fields determine the minute

  lemma ClockValid(ts: int)
    ensures Calendar.ValidDate(ClockOf(ts).date)
    ensures ClockOf(ts).hour < 24 && ClockOf(ts).minute < 60
  {
    Calendar.CivilRoundTrip(ts / 86400);
    hide Calendar.CivilFromDays, Calendar.ValidDate;
  }

  lemma MinuteFromFields(ts: int)
    ensures MinuteOf(ts) == 1440 * (ts / 86400) + 60 * (ts % 86400 / 3600) + ts % 86400 % 3600 / 60
  {
  }

  lemma SameClockSameMinute(s: int, t: int)
    requires ClockOf(s) == ClockOf(t)
    ensures MinuteOf(s) == MinuteOf(t)
  {
    Calendar.CivilRoundTrip(s / 86400);
    Calendar.CivilRoundTrip(t / 86400);
    hide Calendar.CivilFromDays, Calendar.DaysFromCivil;
    MinuteFromFields(s);
    MinuteFromFields(t);
  }

  lemma FieldsFromMinute(ts: int, m: int)
    requires m == MinuteOf(ts)
    ensures ts / 86400 == m / 1440
    ensures ts % 86400 / 3600 == m % 1440 / 60
    ensures ts % 86400 % 3600 / 60 == m % 60
  {
    MinuteFromFields(ts);
    MinuteParts(ts / 86400, ts % 86400 / 3600, ts % 86400 % 3600 / 60);
  }

  lemma MinuteParts(day: int, hour: int, minute: int)
    requires 0 <= hour < 24 && 0 <= minute < 60
    ensures var m := 1440 * day + 60 * hour + minute;
            m / 1440 == day && m % 1440 / 60 == hour && m % 60 == minute
  {
    var m := 1440 * day + 60 * hour + minute;
    assert m == 60 * (24 * day + hour) + minute;
  }

  lemma SameMinuteSameClock(s: int, t: int)
    requires MinuteOf(s) == MinuteOf(t)
    ensures ClockOf(s) == ClockOf(t)
  {
    hide Calendar.CivilFromDays, MinuteOf;
    FieldsFromMinute(s, MinuteOf(s));
    FieldsFromMinute(t, MinuteOf(t));
  }

  // ----- The path determines the clock fields

  lemma YearFieldPlain(y: int)
    ensures '/' !in YearField(y) && '.' !in YearField(y)
  {
  }

  lemma YearFieldInjective(x: int, y: int)
    requires YearField(x) == YearField(y)
    ensures x == y
  {
    hide Padded;
    assert x < 0 <==> YearField(x)[0] == '-';
    assert y < 0 <==> YearField(y)[0] == '-';
    if x < 0 {
      PrefixCancel("-", Padded(3, -x), Padded(3, -y));
      PaddedInjective(3, -x, -y);
    } else {
      PaddedInjective(4, x, y);
    }
  }

  lemma YearMonthInjective(c: Clock, e: Clock)
    requires Calendar.ValidDate(c.date) && Calendar.ValidDate(e.date)
    requires YearMonth(c) == YearMonth(e)
    ensures c.date.year == e.date.year && c.date.month == e.date.month
  {
    hide YearField, Padded;
    YearFieldPlain(c.date.year);
    YearFieldPlain(e.date.year);
    SplitUnique(YearField(c.date.year), Padded(2, c.date.month), YearField(e.date.year), Padded(2, e.date.month), '.');
    YearFieldInjective(c.date.year, e.date.year);
    PaddedInjective(2, c.date.month, e.date.month);
  }

  lemma HhmmInjective(c: Clock, e: Clock)
    requires c.hour < 24 && e.hour < 24
    requires Hhmm(c) == Hhmm(e)
    ensures c.hour == e.hour && c.minute == e.minute
  {
    assert Power10(2) == 100;
    PaddedWidth(2, c.hour);
    PaddedWidth(2, e.hour);
    hide Padded;
    SameLengthSplit(Padded(2, c.hour), Padded(2, c.minute), Padded(2, e.hour), Padded(2, e.minute));
    PaddedInjective(2, c.hour, e.hour);
    PaddedInjective(2, c.minute, e.minute);
  }

  lemma YmdPlain(c: Clock)
    requires Calendar.ValidDate(c.date)
    ensures '.' !in Ymd(c) && '/' !in Ymd(c)
  {
    YearFieldPlain(c.date.year);
    hide YearField, Padded;
  }

  lemma YmdDay(c: Clock, e: Clock)
    requires Calendar.ValidDate(c.date) && Calendar.ValidDate(e.date)
    requires c.date.year == e.date.year && c.date.month == e.date.month
    requires Ymd(c) == Ymd(e)
    ensures c.date == e.date
  {
    hide YearField, Padded;
    PrefixCancel(YearField(c.date.year), Padded(2, c.date.month) + Padded(2, c.date.day),
                 Padded(2, e.date.month) + Padded(2, e.date.day));
    PrefixCancel(Padded(2, c.date.month), Padded(2, c.date.day), Padded(2, e.date.day));
    PaddedInjective(2, c.date.day, e.date.day);
  }

  lemma FileNameInjective(stem: string, c: Clock, e: Clock, ext: string)
    requires Calendar.ValidDate(c.date) && Calendar.ValidDate(e.date)
    requires c.hour < 24 && e.hour < 24
    requires FileName(stem, c, ext) == FileName(stem, e, ext)
    ensures Ymd(c) == Ymd(e) && c.hour == e.hour && c.minute == e.minute
  {
    YmdPlain(c);
    YmdPlain(e);
    hide Ymd;
    PrefixCancel(stem, Ymd(c) + "." + (Hhmm(c) + "." + ext), Ymd(e) + "." + (Hhmm(e) + "." + ext));
    SplitUnique(Ymd(c), Hhmm(c) + "." + ext, Ymd(e), Hhmm(e) + "." + ext, '.');
    SplitUnique(Hhmm(c), ext, Hhmm(e), ext, '.');
    HhmmInjective(c, e);
  }

  lemma RelativePathParts(cfg: Config, s: Stream, t: Stream, c: Clock, e: Clock)
    requires Calendar.ValidDate(c.date) && Calendar.ValidDate(e.date)
    requires RelativePath(cfg, s, c) == RelativePath(cfg, t, e)
    ensures YearMonth(c) == YearMonth(e)
    ensures var ext := Extension(cfg.compression);
            FileName(Stem(cfg.profile, s), c, ext) == FileName(Stem(cfg.profile, t), e, ext)
  {
    var ext := Extension(cfg.compression);
    YearFieldPlain(c.date.year);
    YearFieldPlain(e.date.year);
    assert '/' !in YearMonth(c) && '/' !in YearMonth(e);
    hide YearMonth, FileName;
    var f, g := FileName(Stem(cfg.profile, s), c, ext), FileName(Stem(cfg.profile, t), e, ext);
    PrefixCancel(cfg.collector + "/", YearMonth(c) + "/" + f, YearMonth(e) + "/" + g);
    SplitUnique(YearMonth(c), f, YearMonth(e), g, '/');
  }

  /** Two bucket starts share a path exactly when they fall in the same minute, in every year. */
  lemma SamePathIffSameMinute(cfg: Config, stream: Stream, s: int, t: int)
    ensures PathOfBucket(cfg, stream, s) == PathOfBucket(cfg, stream, t) <==> MinuteOf(s) == MinuteOf(t)
  {
    if MinuteOf(s) == MinuteOf(t) {
      SameMinuteSameClock(s, t);
      hide ClockOf, RelativePath;
    } else if PathOfBucket(cfg, stream, s) == PathOfBucket(cfg, stream, t) {
      SamePathSameMinute(cfg, stream, s, t);
    }
  }

  lemma SamePathSameMinute(cfg: Config, stream: Stream, s: int, t: int)
    requires PathOfBucket(cfg, stream, s) == PathOfBucket(cfg, stream, t)
    ensures MinuteOf(s) == MinuteOf(t)
  {
    hide ClockOf, RelativePath, MinuteOf, YearMonth, FileName, Ymd, Calendar.ValidDate;
    var c, e := ClockOf(s), ClockOf(t);
    ClockValid(s);
    ClockValid(t);
    RelativePathParts(cfg, stream, stream, c, e);
    YearMonthInjective(c, e);
    FileNameInjective(Stem(cfg.profile, stream), c, e, Extension(cfg.compression));
    YmdDay(c, e);
    SameClockSameMinute(s, t);
  }

  /** No two buckets of the stream are rendered to one path. */
  ghost predicate PathsInjective(cfg: Config, stream: Stream)
    requires Interval(cfg, stream) > 0
  {
    forall s, t :: SegmentPath(cfg, stream, s) == SegmentPath(cfg, stream, t) ==>
      AlignedEpoch(s, Interval(cfg, stream)) == AlignedEpoch(t, Interval(cfg, stream))
  }

  lemma BucketPathInjective(cfg: Config, stream: Stream, s: int, t: int)
    requires Interval(cfg, stream) >= 60
    requires s % Interval(cfg, stream) == 0 && t % Interval(cfg, stream) == 0
    requires PathOfBucket(cfg, stream, s) == PathOfBucket(cfg, stream, t)
    ensures s == t
  {
    SamePathIffSameMinute(cfg, stream, s, t);
    hide PathOfBucket;
    MultiplesApart(s, t, Interval(cfg, stream));
  }

  /** File names have minute resolution, so paths separate buckets exactly when buckets last a minute. */
  lemma PathsInjectiveIffMinuteLong(cfg: Config, stream: Stream)
    requires Interval(cfg, stream) > 0
    ensures PathsInjective(cfg, stream) <==> Interval(cfg, stream) >= 60
  {
    var i := Interval(cfg, stream);
    hide PathOfBucket;
    if i >= 60 {
      forall s, t | SegmentPath(cfg, stream, s) == SegmentPath(cfg, stream, t)
        ensures AlignedEpoch(s, i) == AlignedEpoch(t, i)
      {
        BucketPathInjective(cfg, stream, AlignedEpoch(s, i), AlignedEpoch(t, i));
      }
    } else {
      AlignedUnique(0, 0, i);
      AlignedUnique(i, i, i);
      SamePathIffSameMinute(cfg, stream, 0, i);
      assert SegmentPath(cfg, stream, 0) == SegmentPath(cfg, stream, i);
    }
  }

  /** Validation lets a colliding configuration through. */
  lemma ValidationAllowsCollisions() returns (cfg: Config)
    ensures Validated(cfg)
    ensures !PathsInjective(cfg, Updates)
  {
    cfg := Config("focl01", RouteViews, Gzip, 30, 7200, "/archive", "/archive/.tmp");
    assert cfg.collector[0] != ' ';
    hide PathsInjective;
    PathsInjectiveIffMinuteLong(cfg, Updates);
  }

  /** An updates segment and a RIB segment never share a path. */
  lemma StreamsNeverCollide(cfg: Config, s: int, t: int)
    requires cfg.updatesInterval > 0 && cfg.ribsInterval > 0
    ensures SegmentPath(cfg, Updates, s) != SegmentPath(cfg, Ribs, t)
  {
    var c := ClockOf(AlignedEpoch(s, cfg.updatesInterval));
    var e := ClockOf(AlignedEpoch(t, cfg.ribsInterval));
    ClockValid(AlignedEpoch(s, cfg.updatesInterval));
    ClockValid(AlignedEpoch(t, cfg.ribsInterval));
    hide ClockOf, RelativePath, YearMonth, Calendar.ValidDate;
    if RelativePath(cfg, Updates, c) == RelativePath(cfg, Ribs, e) {
      RelativePathParts(cfg, Updates, Ribs, c, e);
      var ext := Extension(cfg.compression);
      StemFirst(Stem(cfg.profile, Updates), c, ext);
      StemFirst(Stem(cfg.profile, Ribs), e, ext);
      hide FileName;
      assert false;
    }
  }

  lemma StemFirst(stem: string, c: Clock, ext: string)
    requires stem != "" && Calendar.ValidDate(c.date)
    ensures |FileName(stem, c, ext)| > 0 && FileName(stem, c, ext)[0] == stem[0]
  {
  }

  // ----- Paths end in the extension of their compression

  lemma SuffixOfConcat(a: string, b: string, p: string)
    requires EndsWith(b, p)
    ensures EndsWith(a + b, p)
  {
    assert (a + b)[|a + b| - |p|..] == b[|b| - |p|..];
  }

  /** A rendered segment path ends in the dotted compression extension. */
  lemma PathEndsInExtension(cfg: Config, stream: Stream, start: int)
    ensures EndsWith(PathOfBucket(cfg, stream, start), "." + Extension(cfg.compression))
  {
    var ext := Extension(cfg.compression);
    var c := ClockOf(start);
    ClockValid(start);
    var tail := "." + ext;
    assert EndsWith(tail, tail);
    hide ClockOf, YearMonth, Ymd, Hhmm, Calendar.ValidDate, EndsWith;
    var stem := Stem(cfg.profile, stream);
    SuffixOfConcat(Hhmm(c), tail, tail);
    assert Hhmm(c) + tail == Hhmm(c) + "." + ext;
    SuffixOfConcat(Ymd(c) + ".", Hhmm(c) + "." + ext, tail);
    SuffixOfConcat(stem, Ymd(c) + "." + (Hhmm(c) + "." + ext), tail);
    SuffixOfConcat(YearMonth(c) + "/", FileName(stem, c, ext), tail);
    SuffixOfConcat(cfg.collector + "/", YearMonth(c) + "/" + FileName(stem, c, ext), tail);
  }
}
