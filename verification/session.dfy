/** Session persistence (src/agent/session.ts): session ids made from the
    clock, and the saving, loading and listing of one YAML file per session.
    The sessions directory is a value: its entries in `readdir` order and,
    for each entry that can be read, what parsing it yields. */
module Session {
  import opened Wrappers
  import opened JsText

  // ── Session ids ──────────────────────────────────────────────────────────

  /** The local-time fields of `new Date()` that `generateId` reads;
      `month` is `getMonth()`, which counts from 0. */
  datatype Clock = Clock(year: nat, month: nat, date: nat, hours: nat, minutes: nat, seconds: nat)

  /** A reading a `Date` can give, in a year written with four digits. */
  predicate ValidClock(c: Clock) {
    1000 <= c.year <= 9999 && c.month < 12 && 1 <= c.date <= 31 &&
    c.hours < 24 && c.minutes < 60 && c.seconds < 60
  }

  /** `String(n).padStart(2, '0')` */
  function Pad(n: nat): string {
    var s := NatToString(n);
    if |s| >= 2 then s else Repeat('0', 2 - |s|) + s
  }

  /** `Pad` puts zeros in front of the digits up to two characters and keeps
      a longer text whole. */
  lemma PadSpec(n: nat)
    ensures var s := NatToString(n); var r := Pad(n);
      |r| == (if |s| >= 2 then |s| else 2) && EndsWith(r, s) &&
      forall i :: 0 <= i < |r| - |s| ==> r[i] == '0'
  {
    var s := NatToString(n);
    var r := Pad(n);
    assert r[|r| - |s|..] == s;
  }

  /** `generateId()`: `YYYY-MM-DDTHH-MM-SS` with the month counted from 1. */
  function GenerateId(c: Clock): string {
    NatToString(c.year) + "-" + Pad(c.month + 1) + "-" + Pad(c.date) + "T" +
    Pad(c.hours) + "-" + Pad(c.minutes) + "-" + Pad(c.seconds)
  }

  /** Chronological order of two readings, field by field. */
  predicate Earlier(a: Clock, b: Clock) {
    a.year < b.year || (a.year == b.year &&
    (a.month < b.month || (a.month == b.month &&
    (a.date < b.date || (a.date == b.date &&
    (a.hours < b.hours || (a.hours == b.hours &&
    (a.minutes < b.minutes || (a.minutes == b.minutes &&
    a.seconds < b.seconds)))))))))
  }

  function Pow10(w: nat): (p: nat)
    ensures p >= 1
  {
    if w == 0 then 1 else 10 * Pow10(w - 1)
  }

  /** The last `w` decimal digits of `n`, most significant first. */
  function Digits(n: nat, w: nat): (r: string)
    ensures |r| == w
  {
    if w == 0 then [] else Digits(n / 10, w - 1) + [DigitChar(n % 10)]
  }

  /** Numbers below `10^w` written with `w` digits compare as text exactly
      as they compare as numbers, and are written alike only when equal. */
  lemma {:induction false} DigitsOrder(n: nat, m: nat, w: nat)
    requires n < Pow10(w) && m < Pow10(w)
    ensures Less(Digits(n, w), Digits(m, w)) <==> n < m
    ensures Digits(n, w) == Digits(m, w) <==> n == m
  {
    if w > 0 {
      DigitsOrder(n / 10, m / 10, w - 1);
      var cn, cm := DigitChar(n % 10), DigitChar(m % 10);
      LessConcat(Digits(n / 10, w - 1), Digits(m / 10, w - 1), [cn], [cm]);
      ConcatEq(Digits(n / 10, w - 1), Digits(m / 10, w - 1), [cn], [cm]);
      assert Less([cn], [cm]) <==> n % 10 < m % 10;
    }
  }

  /** Below 100, `Pad` writes exactly two digits. */
  lemma PadDigits(n: nat)
    requires n < 100
    ensures Pad(n) == Digits(n, 2)
  {
    if n >= 10 {
      assert NatToString(n) == NatToString(n / 10) + [DigitChar(n % 10)];
    }
  }

  /** A number with `w` digits is written with exactly those digits. */
  lemma {:induction false} NatDigits(n: nat, w: nat)
    requires w >= 1 && Pow10(w - 1) <= n < Pow10(w)
    ensures NatToString(n) == Digits(n, w)
  {
    if w > 1 {
      assert Pow10(w - 1) == 10 * Pow10(w - 2);
      assert Pow10(w - 2) <= n / 10 < Pow10(w - 1);
      NatDigits(n / 10, w - 1);
    }
  }

  /** Appending after prefixes of equal length: the prefixes decide the
      order unless they are equal. */
  lemma LessConcat(p: string, q: string, x: string, y: string)
    requires |p| == |q|
    ensures Less(p + x, q + y) <==> Less(p, q) || (p == q && Less(x, y))
  {
    if p == q {
      LessIrreflexive(p);
      LessCommonPrefix(p, x, y);
    } else {
      LessTotal(p, q);
      if Less(p, q) {
        LessPrefix(p, q, x, y);
      } else {
        LessPrefix(q, p, y, x);
        LessAsymmetric(p + x, q + y);
      }
    }
  }

  /** Concatenations with prefixes of equal length are equal exactly when
      both parts are. */
  lemma ConcatEq(p: string, q: string, x: string, y: string)
    requires |p| == |q|
    ensures p + x == q + y <==> p == q && x == y
  {
    if p + x == q + y {
      assert p == (p + x)[..|p|] && q == (q + y)[..|q|];
      assert x == (p + x)[|p|..] && y == (q + y)[|q|..];
    }
  }

  /** Two-digit fields compare as text as their numbers do. */
  lemma PadOrder(n: nat, m: nat)
    requires n < 100 && m < 100
    ensures |Pad(n)| == 2 && |Pad(m)| == 2
    ensures Less(Pad(n), Pad(m)) <==> n < m
    ensures Pad(n) == Pad(m) <==> n == m
  {
    PadDigits(n);
    PadDigits(m);
    DigitsOrder(n, m, 2);
  }

  /** A separator and a field after prefixes of equal length, with fields of
      equal length: the prefixes decide unless they are equal, and then the
      fields do. */
  lemma FieldStep(p: string, q: string, sep: string, x: string, y: string)
    requires |p| == |q| && |x| == |y|
    ensures Less(p + sep + x, q + sep + y) <==> Less(p, q) || (p == q && Less(x, y))
    ensures p + sep + x == q + sep + y <==> p == q && x == y
  {
    LessIrreflexive(sep);
    LessConcat(p, q, sep, sep);
    ConcatEq(p, q, sep, sep);
    LessConcat(p + sep, q + sep, x, y);
    ConcatEq(p + sep, q + sep, x, y);
  }

  /** Four-digit years compare as text as their numbers do. */
  lemma YearOrder(y: nat, z: nat)
    requires 1000 <= y <= 9999 && 1000 <= z <= 9999
    ensures |NatToString(y)| == 4 && |NatToString(z)| == 4
    ensures Less(NatToString(y), NatToString(z)) <==> y < z
    ensures NatToString(y) == NatToString(z) <==> y == z
  {
    assert Pow10(3) == 1000 && Pow10(4) == 10000;
    NatDigits(y, 4);
    NatDigits(z, 4);
    DigitsOrder(y, z, 4);
  }

  /** The date part of an id, `YYYY-MM-DD`. */
  function DayPart(c: Clock): string {
    Dashed(NatToString(c.year), Pad(c.month + 1), Pad(c.date))
  }

  function Dashed(y: string, m: string, d: string): string {
    y + "-" + m + "-" + d
  }

  /** Chronological order of the days of two readings. */
  predicate EarlierDay(a: Clock, b: Clock) {
    a.year < b.year || (a.year == b.year &&
    (a.month < b.month || (a.month == b.month && a.date < b.date)))
  }

  lemma DayPartOrder(a: Clock, b: Clock)
    requires ValidClock(a) && ValidClock(b)
    ensures |DayPart(a)| == 10 && |DayPart(b)| == 10
    ensures Less(DayPart(a), DayPart(b)) <==> EarlierDay(a, b)
    ensures DayPart(a) == DayPart(b) <==> a.year == b.year && a.month == b.month && a.date == b.date
  {
    YearOrder(a.year, b.year);
    MonthStep(NatToString(a.year), NatToString(b.year), a, b);
  }

  /** The month and date written after year texts that compare as the years do. */
  lemma MonthStep(ya: string, yb: string, a: Clock, b: Clock)
    requires ValidClock(a) && ValidClock(b) && |ya| == |yb|
    requires (Less(ya, yb) <==> a.year < b.year) && (ya == yb <==> a.year == b.year)
    ensures |Dashed(ya, Pad(a.month + 1), Pad(a.date))| == |ya| + 6
    ensures |Dashed(yb, Pad(b.month + 1), Pad(b.date))| == |yb| + 6
    ensures Less(Dashed(ya, Pad(a.month + 1), Pad(a.date)), Dashed(yb, Pad(b.month + 1), Pad(b.date))) <==> EarlierDay(a, b)
    ensures Dashed(ya, Pad(a.month + 1), Pad(a.date)) == Dashed(yb, Pad(b.month + 1), Pad(b.date)) <==>
            a.year == b.year && a.month == b.month && a.date == b.date
  {
    MonthOrder(a.month, b.month);
    PadOrder(a.date, b.date);
    DashedOrder(ya, yb, Pad(a.month + 1), Pad(b.month + 1), Pad(a.date), Pad(b.date),
                a.year, b.year, a.month, b.month, a.date, b.date);
  }

  /** Dashed fields compare as their parts, given how the parts compare. */
  lemma DashedOrder(ya: string, yb: string, ma: string, mb: string, da: string, db: string,
                    y: nat, z: nat, m: nat, n: nat, d: nat, e: nat)
    requires |ya| == |yb| && |ma| == |mb| && |da| == |db|
    requires (Less(ya, yb) <==> y < z) && (ya == yb <==> y == z)
    requires (Less(ma, mb) <==> m < n) && (ma == mb <==> m == n)
    requires (Less(da, db) <==> d < e) && (da == db <==> d == e)
    ensures |Dashed(ya, ma, da)| == |ya| + |ma| + |da| + 2
    ensures Less(Dashed(ya, ma, da), Dashed(yb, mb, db)) <==>
            y < z || (y == z && (m < n || (m == n && d < e)))
    ensures Dashed(ya, ma, da) == Dashed(yb, mb, db) <==> y == z && m == n && d == e
  {
    TwoFields(ya, yb, "-", ma, mb, "-", da, db);
  }

  /** Months written from 1 compare as the months do. */
  lemma MonthOrder(m: nat, n: nat)
    requires m < 12 && n < 12
    ensures |Pad(m + 1)| == 2 && |Pad(n + 1)| == 2
    ensures Less(Pad(m + 1), Pad(n + 1)) <==> m < n
    ensures Pad(m + 1) == Pad(n + 1) <==> m == n
  {
    PadOrder(m + 1, n + 1);
  }

  /** Two separated fields after prefixes of equal length, with fields of
      equal lengths: compared as the prefixes, then the first fields, then
      the second. */
  lemma TwoFields(p: string, q: string, s1: string, x1: string, y1: string,
                  s2: string, x2: string, y2: string)
    requires |p| == |q| && |x1| == |y1| && |x2| == |y2|
    ensures Less(p + s1 + x1 + s2 + x2, q + s1 + y1 + s2 + y2) <==>
            Less(p, q) || (p == q && (Less(x1, y1) || (x1 == y1 && Less(x2, y2))))
    ensures p + s1 + x1 + s2 + x2 == q + s1 + y1 + s2 + y2 <==> p == q && x1 == y1 && x2 == y2
  {
    FieldStep(p, q, s1, x1, y1);
    FieldStep(p + s1 + x1, q + s1 + y1, s2, x2, y2);
  }

  /** Ids of four-digit years compare as text exactly as their readings
      compare in time, and only equal readings share an id. */
  lemma IdOrder(a: Clock, b: Clock)
    requires ValidClock(a) && ValidClock(b)
    ensures |GenerateId(a)| == 19
    ensures Less(GenerateId(a), GenerateId(b)) <==> Earlier(a, b)
    ensures GenerateId(a) == GenerateId(b) <==> a == b
  {
    DayPartOrder(a, b);
    assert GenerateId(a) == TimeAfter(DayPart(a), a);
    assert GenerateId(b) == TimeAfter(DayPart(b), b);
    TimeAfterOrder(DayPart(a), DayPart(b), a, b);
  }

  /** `THH-MM-SS` after a date part. */
  function TimeAfter(day: string, c: Clock): string {
    day + "T" + Pad(c.hours) + "-" + Pad(c.minutes) + "-" + Pad(c.seconds)
  }

  lemma TimeAfterOrder(da: string, db: string, a: Clock, b: Clock)
    requires |da| == |db| && ValidClock(a) && ValidClock(b)
    ensures |TimeAfter(da, a)| == |da| + 9
    ensures Less(TimeAfter(da, a), TimeAfter(db, b)) <==>
            Less(da, db) || (da == db && (a.hours < b.hours || (a.hours == b.hours &&
            (a.minutes < b.minutes || (a.minutes == b.minutes && a.seconds < b.seconds)))))
    ensures TimeAfter(da, a) == TimeAfter(db, b) <==>
            da == db && a.hours == b.hours && a.minutes == b.minutes && a.seconds == b.seconds
  {
    PadOrder(a.hours, b.hours);
    FieldStep(da, db, "T", Pad(a.hours), Pad(b.hours));
    var ha, hb := da + "T" + Pad(a.hours), db + "T" + Pad(b.hours);
    PadOrder(a.minutes, b.minutes);
    FieldStep(ha, hb, "-", Pad(a.minutes), Pad(b.minutes));
    PadOrder(a.seconds, b.seconds);
    FieldStep(ha + "-" + Pad(a.minutes), hb + "-" + Pad(b.minutes), "-", Pad(a.seconds), Pad(b.seconds));
  }

  // ── Session files ────────────────────────────────────────────────────────

  /** `SessionMetadata`. */
  datatype Metadata = Metadata(id: string, createdAt: string, updatedAt: string,
                               model: string, totalTokens: int, summary: string)

  /** `SessionData`: the metadata and the messages, which a file may lack. */
  datatype SessionData<M> = SessionData(meta: Metadata, messages: Option<seq<M>>)

  /** `SessionSummary`. */
  datatype Summary = Summary(meta: Metadata, messageCount: nat)

  /** What reading and parsing one directory entry yields: a session, or an
      error (unreadable, not YAML, or an empty document) that `list` skips. */
  datatype Entry<M> = Corrupt | Stored(data: SessionData<M>)

  /** The sessions directory: its entry names in `readdir` order, and what
      reading each entry yields (an entry without one cannot be read). */
  datatype Directory<M> = Directory(names: seq<string>, files: map<string, Entry<M>>)

  /** `${id}.yaml` */
  function FileName(id: string): string {
    id + ".yaml"
  }

  lemma FileNameInjective(id: string, other: string)
    ensures FileName(id) == FileName(other) <==> id == other
  {
    if FileName(id) == FileName(other) {
      assert |id| == |other|;
      assert id == FileName(id)[..|id|];
    }
  }

  /** The session an entry holds, when it can be read and parsed. */
  function ReadEntry<M>(dir: Directory<M>, name: string): Option<SessionData<M>> {
    if name in dir.files && dir.files[name].Stored? then Some(dir.files[name].data) else None
  }

  /** `save(id, ctx, metadata)`: the file `${id}.yaml` now holds the
      metadata, the id, the time of saving and the messages; a new file is
      added to the directory's entries. `ioError` is the error the file
      system raises on the write, if any: `save` then throws it and the
      directory is left as it was. */
  function Save<M>(dir: Directory<M>, id: string, messages: seq<M>, createdAt: string,
                   model: string, totalTokens: int, summary: string, now: string,
                   ioError: Option<string>): (r: Result<Directory<M>>)
    ensures r.Fail? <==> ioError.Some?
    ensures r.Fail? ==> r.message == ioError.value
    ensures r.Ok? ==> FileName(id) in r.value.names && ReadEntry(r.value, FileName(id)).Some?
    ensures r.Ok? ==> forall n :: n != FileName(id) ==> ReadEntry(r.value, n) == ReadEntry(dir, n)
    ensures r.Ok? ==> forall n :: n in dir.names ==> n in r.value.names
  {
    if ioError.Some? then Fail(ioError.value)
    else
      var name := FileName(id);
      var data := SessionData(Metadata(id, createdAt, now, model, totalTokens, summary), Some(messages));
      Ok(Directory(if name in dir.names then dir.names else dir.names + [name],
                   dir.files[name := Stored(data)]))
  }

  /** What `load` gives: `null`, a throw from reading or parsing, or the
      messages and the metadata. */
  datatype LoadResult<M> = NotFound | Throws | Loaded(messages: Option<seq<M>>, meta: Metadata)

  /** `load(id)`, on a directory that may not exist. */
  function Load<M>(dir: Option<Directory<M>>, id: string): (r: LoadResult<M>)
    ensures r.NotFound? <==> dir.None? || FileName(id) !in dir.value.names
    ensures r.Loaded? ==> ReadEntry(dir.value, FileName(id)).Some? &&
                          r.meta == ReadEntry(dir.value, FileName(id)).value.meta
  {
    var name := FileName(id);
    if dir.None? || name !in dir.value.names then NotFound
    else match ReadEntry(dir.value, name)
      case None => Throws
      case Some(data) => Loaded(data.messages, data.meta)
  }

  /** Loading a session just saved without error gives back its messages and metadata, the
      saving time as `updated_at`; other sessions load as before. */
  lemma SaveLoad<M>(dir: Directory<M>, id: string, messages: seq<M>, createdAt: string,
                    model: string, totalTokens: int, summary: string, now: string, other: string)
    ensures Load(Some(Save(dir, id, messages, createdAt, model, totalTokens, summary, now, None).value), id) ==
            Loaded(Some(messages), Metadata(id, createdAt, now, model, totalTokens, summary))
    ensures other != id ==>
            Load(Some(Save(dir, id, messages, createdAt, model, totalTokens, summary, now, None).value), other) ==
            Load(Some(dir), other)
  {
    FileNameInjective(other, id);
  }

  // ── Listing ──────────────────────────────────────────────────────────────

  /** `.filter(f => f.endsWith('.yaml'))` */
  function YamlNames(names: seq<string>): (r: seq<string>)
    ensures forall n :: n in r <==> n in names && EndsWith(n, ".yaml")
    ensures |r| <= |names|
  {
    if names == [] then []
    else (if EndsWith(names[0], ".yaml") then [names[0]] else []) + YamlNames(names[1..])
  }

  function Reverse(s: seq<string>): (r: seq<string>)
    ensures |r| == |s| && forall i :: 0 <= i < |s| ==> r[i] == s[|s| - 1 - i]
  {
    if s == [] then [] else Reverse(s[1..]) + [s[0]]
  }

  lemma {:induction false} ReverseMultiset(s: seq<string>)
    ensures multiset(Reverse(s)) == multiset(s)
  {
    if s != [] {
      ReverseMultiset(s[1..]);
      assert s == [s[0]] + s[1..];
    }
  }

  /** The order `list` reads the files in: the `.yaml` names,
      `.sort().reverse()`. */
  function ListOrder(names: seq<string>): seq<string> {
    Reverse(Sort(YamlNames(names)))
  }

  /** `list` reads each `.yaml` entry once, in descending text order, and
      nothing else. */
  lemma ListOrderSpec(names: seq<string>)
    ensures var r := ListOrder(names);
      multiset(r) == multiset(YamlNames(names)) &&
      (forall n :: n in r <==> n in names && EndsWith(n, ".yaml")) &&
      forall i, j :: 0 <= i < j < |r| ==> LessEq(r[j], r[i])
  {
    var s := Sort(YamlNames(names));
    ReverseMultiset(s);
    assert forall n :: n in ListOrder(names) <==> n in multiset(s);
  }

  /** The summary `list` makes of a session: `message_count` is the number of
      messages, 0 when the file has none. */
  function SummaryOf<M>(d: SessionData<M>): Summary {
    Summary(d.meta, if d.messages.Some? then |d.messages.value| else 0)
  }

  /** The summaries of the readable files among `order`, in that order. */
  function Summaries<M>(dir: Directory<M>, order: seq<string>): seq<Summary> {
    if order == [] then []
    else
      var last := order[|order| - 1];
      Summaries(dir, order[..|order| - 1]) +
      (if ReadEntry(dir, last).Some? then [SummaryOf(ReadEntry(dir, last).value)] else [])
  }

  /** What `list()` returns. */
  function Listing<M>(dir: Option<Directory<M>>): seq<Summary> {
    if dir.None? then [] else Summaries(dir.value, ListOrder(dir.value.names))
  }

  /** `list()`: the loop over the ordered `.yaml` names, skipping the files
      that cannot be read or parsed. */
  method List<M>(dir: Option<Directory<M>>) returns (summaries: seq<Summary>)
    ensures summaries == Listing(dir)
  {
    if dir.None? {
      return [];
    }
    var files := ListOrder(dir.value.names);
    summaries := [];
    var i := 0;
    while i < |files|
      invariant 0 <= i <= |files|
      invariant summaries == Summaries(dir.value, files[..i])
    {
      SummariesStep(dir.value, files, i);
      var data := ReadEntry(dir.value, files[i]);
      if data.Some? {
        summaries := summaries + [SummaryOf(data.value)];
      }
      i := i + 1;
    }
    assert files[..i] == files;
  }

  /** One more file adds its summary, when it has one, at the end. */
  lemma SummariesStep<M>(dir: Directory<M>, order: seq<string>, i: nat)
    requires i < |order|
    ensures Summaries(dir, order[..i + 1]) == Summaries(dir, order[..i]) +
            (if ReadEntry(dir, order[i]).Some? then [SummaryOf(ReadEntry(dir, order[i]).value)] else [])
  {
    assert order[..i + 1][..i] == order[..i];
  }

  /** The summaries of a sequence of files are those of its parts, one
      after the other: a file that cannot be read drops out alone. */
  lemma {:induction false} SummariesAppend<M>(dir: Directory<M>, a: seq<string>, b: seq<string>)
    ensures Summaries(dir, a + b) == Summaries(dir, a) + Summaries(dir, b)
  {
    if b != [] {
      var b' := b[..|b| - 1];
      assert (a + b)[..|a + b| - 1] == a + b';
      SummariesAppend(dir, a, b');
    } else {
      assert a + b == a;
    }
  }

  /** A summary is listed from `order` exactly when some file of `order`
      holds a session it summarises. */
  lemma {:induction false} SummariesMembers<M>(dir: Directory<M>, order: seq<string>, s: Summary)
    ensures s in Summaries(dir, order) <==>
            exists n :: n in order && ReadEntry(dir, n).Some? && s == SummaryOf(ReadEntry(dir, n).value)
  {
    if order != [] {
      var init, last := order[..|order| - 1], order[|order| - 1];
      SummariesMembers(dir, init, s);
      assert order == init + [last];
      var here := if ReadEntry(dir, last).Some? then [SummaryOf(ReadEntry(dir, last).value)] else [];
      assert Summaries(dir, order) == Summaries(dir, init) + here;
      if s in Summaries(dir, order) && s !in Summaries(dir, init) {
        assert s in here && last in order;
      }
      if exists n :: n in order && ReadEntry(dir, n).Some? && s == SummaryOf(ReadEntry(dir, n).value) {
        var n :| n in order && ReadEntry(dir, n).Some? && s == SummaryOf(ReadEntry(dir, n).value);
        var i :| 0 <= i < |order| && order[i] == n;
        if i < |init| {
          assert init[i] == n;
        } else {
          assert s in here;
        }
      }
    }
  }

  /** The listed summaries are exactly those of the readable `.yaml` files of
      the directory, with the metadata the file holds and `message_count` the
      length of its messages or 0; there is at most one per `.yaml` name. */
  lemma ListingMembers<M>(dir: Directory<M>, s: Summary)
    ensures s in Listing(Some(dir)) <==>
            exists n :: n in dir.names && EndsWith(n, ".yaml") && ReadEntry(dir, n).Some? &&
                        s == Summary(ReadEntry(dir, n).value.meta,
                                     if ReadEntry(dir, n).value.messages.Some?
                                     then |ReadEntry(dir, n).value.messages.value| else 0)
    ensures |Listing(Some(dir))| <= |YamlNames(dir.names)|
  {
    ListOrderSpec(dir.names);
    SummariesMembers(dir, ListOrder(dir.names), s);
    SummariesLength(dir, ListOrder(dir.names));
  }

  lemma {:induction false} SummariesLength<M>(dir: Directory<M>, order: seq<string>)
    ensures |Summaries(dir, order)| <= |order|
  {
    if order != [] {
      SummariesLength(dir, order[..|order| - 1]);
    }
  }

  /** A session saved without error is listed with its summary. */
  lemma SaveListed<M>(dir: Directory<M>, id: string, messages: seq<M>, createdAt: string,
                      model: string, totalTokens: int, summary: string, now: string)
    ensures Summary(Metadata(id, createdAt, now, model, totalTokens, summary), |messages|) in
            Listing(Some(Save(dir, id, messages, createdAt, model, totalTokens, summary, now, None).value))
  {
    var d := Save(dir, id, messages, createdAt, model, totalTokens, summary, now, None).value;
    var name := FileName(id);
    assert EndsWith(name, ".yaml") by {
      assert name[|name| - 5..] == ".yaml";
    }
    ListingMembers(d, Summary(Metadata(id, createdAt, now, model, totalTokens, summary), |messages|));
  }

  /** The files of sessions with ids from four-digit years are read newest
      first. */
  lemma NewestFirst(a: Clock, b: Clock)
    requires ValidClock(a) && ValidClock(b)
    ensures Less(FileName(GenerateId(a)), FileName(GenerateId(b))) <==> Earlier(a, b)
  {
    IdOrder(a, b);
    IdOrder(b, a);
    LessConcat(GenerateId(a), GenerateId(b), ".yaml", ".yaml");
    LessIrreflexive(".yaml");
  }
}
