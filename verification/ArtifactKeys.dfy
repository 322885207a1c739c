/** Storage keys of an artifact: <year>/<month>/<day>/<id>.<extension> for the content and
    <year>/<month>/<day>/<id>.meta.json for the metadata sidecar. */
module ArtifactKeys {
  import opened Decimal
  import Calendar

  const METADATA_SUFFIX := ".meta.json"

  /** An id as randomUUID makes it has neither '/' nor '.'. */
  predicate IsId(id: string) { '/' !in id && '.' !in id }

  /** `${year}`, a negative year with its sign. */
  function YearSegment(y: int): (s: string)
    ensures '/' !in s && '.' !in s
  {
    if y < 0 then "-" + Text(-y) else Text(y)
  }

  function DayPath(createdAt: int): string
  {
    var f := Calendar.FromTime(createdAt);
    YearSegment(f.year) + "/" + Padded(f.month, 2) + "/" + Padded(f.day, 2) + "/"
  }

  function KeyPrefix(id: string, createdAt: int): string
  {
    DayPath(createdAt) + id
  }

  function ContentKey(id: string, createdAt: int, extension: string): string
  {
    KeyPrefix(id, createdAt) + "." + extension
  }

  function MetadataKey(id: string, createdAt: int): string
  {
    KeyPrefix(id, createdAt) + METADATA_SUFFIX
  }

  predicate EndsWith(s: string, suffix: string)
  {
    |suffix| <= |s| && s[|s| - |suffix|..] == suffix
  }

  /** The test by which rebuild picks out sidecars. */
  predicate IsSidecarKey(key: string) { EndsWith(key, METADATA_SUFFIX) }

  /** An extension whose content key rebuild takes for a sidecar. */
  predicate SidecarExtension(extension: string)
  {
    extension == "meta.json" || EndsWith(extension, METADATA_SUFFIX)
  }

  /** The text up to, and the text after, the first `c`. */
  function UpTo(s: string, c: char): string
  {
    if s == "" || s[0] == c then "" else [s[0]] + UpTo(s[1..], c)
  }

  function After(s: string, c: char): string
  {
    if s == "" then "" else if s[0] == c then s[1..] else After(s[1..], c)
  }

  lemma {:induction false} CutAt(a: string, c: char, b: string)
    requires c !in a
    ensures UpTo(a + [c] + b, c) == a && After(a + [c] + b, c) == b
  {
    var s := a + [c] + b;
    if a == "" {
      assert s[1..] == b;
    } else {
      assert s[1..] == a[1..] + [c] + b;
      CutAt(a[1..], c, b);
    }
  }

  /** Segment boundaries of a prefix can be read off the key. */
  lemma PrefixParts(id: string, createdAt: int, rest: string)
    ensures var f := Calendar.FromTime(createdAt);
            var key := KeyPrefix(id, createdAt) + rest;
            && UpTo(key, '/') == YearSegment(f.year)
            && UpTo(After(key, '/'), '/') == Padded(f.month, 2)
            && UpTo(After(After(key, '/'), '/'), '/') == Padded(f.day, 2)
            && After(After(After(key, '/'), '/'), '/') == id + rest
  {
    var f := Calendar.FromTime(createdAt);
    var year, month, day := YearSegment(f.year), Padded(f.month, 2), Padded(f.day, 2);
    NoSlash(month);
    NoSlash(day);
    SlashParts(year, month, day, id + rest);
    assert KeyPrefix(id, createdAt) + rest == year + "/" + month + "/" + day + "/" + (id + rest);
  }

  lemma SlashParts(year: string, month: string, day: string, rest: string)
    requires '/' !in year && '/' !in month && '/' !in day
    ensures var key := year + "/" + month + "/" + day + "/" + rest;
            && UpTo(key, '/') == year && UpTo(After(key, '/'), '/') == month
            && UpTo(After(After(key, '/'), '/'), '/') == day
            && After(After(After(key, '/'), '/'), '/') == rest
  {
    var tail2 := day + "/" + rest;
    var tail1 := month + "/" + tail2;
    assert year + "/" + month + "/" + day + "/" + rest == year + "/" + tail1;
    CutAt(year, '/', tail1);
    CutAt(month, '/', tail2);
    CutAt(day, '/', rest);
  }

  lemma NoSlash(s: string)
    requires AllDigits(s)
    ensures '/' !in s && '.' !in s
  {}

  /** The prefix and the text after its dot are determined by the key. */
  lemma KeyParts(id: string, t: int, x: string, id': string, t': int, x': string)
    requires IsId(id) && IsId(id')
    ensures KeyPrefix(id, t) + "." + x == KeyPrefix(id', t') + "." + x'
            <==> KeyPrefix(id, t) == KeyPrefix(id', t') && x == x'
    ensures KeyPrefix(id, t) + "." + x == KeyPrefix(id', t') + "." + x' ==> id == id'
  {
    PrefixHasNoDot(id, t);
    PrefixHasNoDot(id', t');
    CutAt(KeyPrefix(id, t), '.', x);
    CutAt(KeyPrefix(id', t'), '.', x');
    if KeyPrefix(id, t) == KeyPrefix(id', t') {
      PrefixParts(id, t, "");
      PrefixParts(id', t', "");
      assert KeyPrefix(id, t) + "" == KeyPrefix(id', t') + "";
      assert id + "" == id && id' + "" == id';
    }
  }

  lemma PrefixHasNoDot(id: string, t: int)
    requires IsId(id)
    ensures '.' !in KeyPrefix(id, t)
  {
    var f := Calendar.FromTime(t);
    NoSlash(Padded(f.month, 2));
    NoSlash(Padded(f.day, 2));
  }

  /** Two artifacts share a prefix exactly when they share the id and the UTC day. */
  lemma PrefixIffSameIdAndDay(id: string, t: int, id': string, t': int)
    ensures KeyPrefix(id, t) == KeyPrefix(id', t') <==>
            && id == id'
            && Calendar.FromTime(t).year == Calendar.FromTime(t').year
            && Calendar.FromTime(t).month == Calendar.FromTime(t').month
            && Calendar.FromTime(t).day == Calendar.FromTime(t').day
  {
    PrefixParts(id, t, "");
    PrefixParts(id', t', "");
    assert KeyPrefix(id, t) + "" == KeyPrefix(id, t) && KeyPrefix(id', t') + "" == KeyPrefix(id', t');
    assert id + "" == id && id' + "" == id';
    var f, g := Calendar.FromTime(t), Calendar.FromTime(t');
    if KeyPrefix(id, t) == KeyPrefix(id', t') {
      YearOfSegment(f.year, g.year);
      SamePadded(f.month, g.month);
      SamePadded(f.day, g.day);
    }
  }

  lemma SamePadded(m: nat, n: nat)
    requires Padded(m, 2) == Padded(n, 2)
    ensures m == n
  {
    ValueOfPadded(m, 2);
    ValueOfPadded(n, 2);
  }

  lemma SignOfSegment(y: int)
    ensures YearSegment(y) != "" && (YearSegment(y)[0] == '-' <==> y < 0)
  {
    assert y >= 0 ==> IsDigit(Text(y)[0]);
  }

  lemma YearOfSegment(y: int, z: int)
    requires YearSegment(y) == YearSegment(z)
    ensures y == z
  {
    var a, b := if y < 0 then -y else y, if z < 0 then -z else z;
    ValueOfPadded(a, 1);
    ValueOfPadded(b, 1);
    SignOfSegment(y);
    SignOfSegment(z);
    if y < 0 {
      assert Text(a) == YearSegment(y)[1..] == Text(b);
    }
  }

  // ----- the day of a key and the date of a timestamp -----

  function WithSlashes(s: string): (r: string)
    ensures |r| == |s|
    ensures forall i :: 0 <= i < |s| ==> r[i] == if s[i] == '-' then '/' else s[i]
  {
    seq(|s|, i requires 0 <= i < |s| => if s[i] == '-' then '/' else s[i])
  }

  function DateText(t: int): string { UpTo(Calendar.IsoText(t), 'T') }

  lemma DateOfIso(t: int)
    ensures var f := Calendar.FromTime(t);
            DateText(t) == Calendar.YearText(f.year) + "-" + Padded(f.month, 2) + "-" + Padded(f.day, 2)
  {
    var f := Calendar.FromTime(t);
    DateOfLayout(Calendar.YearText(f.year), Padded(f.month, 2), Padded(f.day, 2), Padded(f.hour, 2),
                 Padded(f.minute, 2), Padded(f.second, 2), Padded(f.ms, 3));
  }

  lemma DateOfLayout(year: string, month: string, day: string, hour: string, minute: string, second: string, ms: string)
    requires 'T' !in year && 'T' !in month && 'T' !in day
    ensures UpTo(Calendar.Layout(year, month, day, hour, minute, second, ms), 'T') == year + "-" + month + "-" + day
  {
    var date, clock := year + "-" + month + "-" + day, hour + ":" + minute + ":" + second + "." + ms + "Z";
    assert Calendar.Layout(year, month, day, hour, minute, second, ms) == date + ['T'] + clock;
    CutAt(date, 'T', clock);
  }

  lemma SlashedDate(year: string, month: string, day: string)
    requires AllDigits(month) && AllDigits(day)
    ensures WithSlashes(year + "-" + month + "-" + day) == WithSlashes(year) + "/" + month + "/" + day
  {}

  /** Only years of four digits without padding read alike in a key and in a timestamp. */
  lemma YearsReadAlikeIff(y: int)
    ensures WithSlashes(Calendar.YearText(y)) == YearSegment(y) <==> 1000 <= y <= 9999
  {
    if 0 <= y <= 9999 {
      FourDigitText(y);
      assert WithSlashes(Padded(y, 4)) == Padded(y, 4);
    } else {
      SignOfSegment(y);
      assert WithSlashes(Calendar.YearText(y))[0] == if y < 0 then '/' else '+';
      assert y > 9999 ==> IsDigit(Text(y)[0]);
    }
  }

  lemma FourDigitText(y: nat)
    requires y <= 9999
    ensures Padded(y, 4) == Text(y) <==> 1000 <= y
  {
    assert PowerOfTen(1) == 10 && PowerOfTen(2) == 100 && PowerOfTen(3) == 1000 && PowerOfTen(4) == 10_000;
    TextWidth(y, 1, 3);
    TextWidth(y, 1, 4);
    ValueOfPadded(y, 1);
    PaddedOfValue(Text(y));
  }

  /** The day directory is the date of toISOString with slashes, exactly for the years 1000 to 9999. */
  lemma DayPathIsIsoDateIff(t: int)
    ensures DayPath(t) == WithSlashes(DateText(t)) + "/" <==> 1000 <= Calendar.FromTime(t).year <= 9999
  {
    var f := Calendar.FromTime(t);
    DateOfIso(t);
    SameDate(f.year, Padded(f.month, 2), Padded(f.day, 2));
  }

  lemma SameDate(y: int, month: string, day: string)
    requires AllDigits(month) && AllDigits(day)
    ensures YearSegment(y) + "/" + month + "/" + day + "/" ==
            WithSlashes(Calendar.YearText(y) + "-" + month + "-" + day) + "/"
            <==> 1000 <= y <= 9999
  {
    var segment, year := YearSegment(y), Calendar.YearText(y);
    YearsReadAlikeIff(y);
    SlashedDate(year, month, day);
    SameFront(segment, WithSlashes(year), month, day);
  }

  lemma SameFront(a: string, b: string, month: string, day: string)
    ensures a + "/" + month + "/" + day + "/" == b + "/" + month + "/" + day + "/" <==> a == b
  {
    var rest := "/" + month + "/" + day + "/";
    assert a + "/" + month + "/" + day + "/" == a + rest && b + "/" + month + "/" + day + "/" == b + rest;
    if a + rest == b + rest {
      assert a == (a + rest)[..|a|] && b == (b + rest)[..|b|];
    }
  }

  /** Keys of different artifacts never coincide, whatever their dates and extensions. */
  lemma DifferentArtifactsDifferentKeys(id: string, t: int, x: string, id': string, t': int, x': string)
    requires IsId(id) && IsId(id') && id != id'
    ensures ContentKey(id, t, x) != ContentKey(id', t', x')
    ensures ContentKey(id, t, x) != MetadataKey(id', t')
    ensures MetadataKey(id, t) != MetadataKey(id', t')
  {
    MetadataKeyForm(id, t);
    MetadataKeyForm(id', t');
    KeyParts(id, t, x, id', t', x');
    KeyParts(id, t, x, id', t', "meta.json");
    KeyParts(id, t, "meta.json", id', t', "meta.json");
  }

  lemma MetadataKeyForm(id: string, t: int)
    ensures MetadataKey(id, t) == KeyPrefix(id, t) + "." + "meta.json" == ContentKey(id, t, "meta.json")
    ensures IsSidecarKey(MetadataKey(id, t))
  {
    SuffixForm(KeyPrefix(id, t));
  }

  lemma SuffixForm(prefix: string)
    ensures prefix + METADATA_SUFFIX == prefix + "." + "meta.json" && IsSidecarKey(prefix + METADATA_SUFFIX)
  {
    assert "." + "meta.json" == METADATA_SUFFIX;
    assert (prefix + METADATA_SUFFIX)[|prefix|..] == METADATA_SUFFIX;
  }

  /** The content of one artifact overwrites its own sidecar only under the extension "meta.json". */
  lemma OwnKeysCollideIff(id: string, t: int, x: string)
    requires IsId(id)
    ensures ContentKey(id, t, x) == MetadataKey(id, t) <==> x == "meta.json"
  {
    MetadataKeyForm(id, t);
    KeyParts(id, t, x, id, t, "meta.json");
  }

  /** rebuild takes a content key for a sidecar exactly for the extensions "meta.json" and "*.meta.json". */
  lemma ContentMistakenForSidecarIff(id: string, t: int, x: string)
    requires IsId(id)
    ensures IsSidecarKey(ContentKey(id, t, x)) <==> SidecarExtension(x)
  {
    PrefixHasNoDot(id, t);
    DottedEnd(KeyPrefix(id, t), x);
  }

  lemma DottedEnd(prefix: string, x: string)
    requires '.' !in prefix
    ensures IsSidecarKey(prefix + "." + x) <==> SidecarExtension(x)
  {
    var key, n := prefix + "." + x, |METADATA_SUFFIX|;
    var tail := "." + x;
    assert key == prefix + tail;
    if |tail| >= n {
      assert |key| - n >= |prefix|;
      assert key[|key| - n..] == tail[|tail| - n..];
      SuffixTail(x);
    } else {
      // The suffix would start inside the prefix, which has no dot.
      assert |key| >= n ==> key[|key| - n] == prefix[|key| - n];
    }
  }

  lemma SuffixTail(x: string)
    requires |x| + 1 >= |METADATA_SUFFIX|
    ensures EndsWith("." + x, METADATA_SUFFIX) <==> SidecarExtension(x)
  {
    var tail, n := "." + x, |METADATA_SUFFIX|;
    if |x| >= n {
      assert tail[|tail| - n..] == x[|x| - n..];
    } else {
      assert tail[|tail| - n..] == tail;
      assert METADATA_SUFFIX == "." + "meta.json";
      assert tail[1..] == x && ("." + "meta.json")[1..] == "meta.json";
    }
  }

  /** For instance the keys of an artifact that was made on a leap day. */
  lemma KeysOnLeapDay(id: string, extension: string)
    ensures ContentKey(id, 951_782_400_000, extension) == "2000/02/29/" + id + "." + extension
    ensures MetadataKey(id, 951_782_400_000) == "2000/02/29/" + id + ".meta.json"
  {
    Calendar.KnownDates();
    assert Text(2) == "2" && Text(20) == "20" && Text(200) == "200" && Text(2000) == "2000";
    assert Padded(0, 1) == "0" && Padded(2, 2) == "02" && Padded(2, 1) == "2" && Padded(29, 2) == "29";
    assert DayPath(951_782_400_000) == "2000" + "/" + "02" + "/" + "29" + "/" == "2000/02/29/";
  }
}
