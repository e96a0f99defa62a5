/** Diary entries as the page sees them (dictionaries whose keys may be missing), the keyword search
    over the cached list, and the label of each expander. */
module Entries {
  import opened Options
  import opened Text

  /** The fields of a stored `datetime` that the label shows. */
  datatype DateTime = DateTime(year: nat, month: nat, day: nat, hour: nat, minute: nat)

  /** The value under `createdAt`: the store's timestamp, or a plain string such as the
      "Just Now" placeholder that a freshly saved entry carries. */
  datatype Stamp = Plain(s: string) | Moment(t: DateTime)

  /** One entry dictionary; every key may be missing. */
  datatype Entry = Entry(title: Option<string>, text: Option<string>, createdAt: Option<Stamp>, id: Option<string>)

  const JustNow := "Just Now"
  const JustNowShown := "\U{1F552} Just Now"
  const NoTimestamp := "No timestamp available"
  const NoText := "No text available"

  /** The dictionary `save_diary_entry` hands back after writing: the title and text it was given,
      the "Just Now" placeholder for the timestamp the server has not resolved yet, and the new document id. */
  function SavedEntry(title: string, text: string, docId: string): (e: Entry)
    ensures e.title == Some(title) && e.text == Some(text) && e.id == Some(docId)
    ensures e.createdAt == Some(Plain(JustNow))
  {
    Entry(Some(title), Some(text), Some(Plain(JustNow)), Some(docId))
  }

  // ---------------------------------------------------------------- search

  /** The search test: the lowered query is a substring of the lowered text or of the lowered title,
      a missing field counting as the empty string. */
  predicate Matches(e: Entry, query: string): (b: bool)
    ensures query == "" ==> b
    ensures Contains(e.text.GetOr(""), query) || Contains(e.title.GetOr(""), query) ==> b
  {
    ContainsLower(e.text.GetOr(""), query);
    ContainsLower(e.title.GetOr(""), query);
    Contains(Lower(e.text.GetOr("")), Lower(query)) || Contains(Lower(e.title.GetOr("")), Lower(query))
  }

  /** `a` can be obtained from `b` by deleting elements, keeping the order of the rest. */
  predicate IsSubsequence<T(==)>(a: seq<T>, b: seq<T>)
    decreases |b|
  {
    a == [] || (b != [] && ((a[0] == b[0] && IsSubsequence(a[1..], b[1..])) || IsSubsequence(a, b[1..])))
  }

  /** The `filtered_entries` comprehension: the matching entries, in cache order. */
  function Filter(entries: seq<Entry>, query: string): (r: seq<Entry>)
    ensures |r| <= |entries|
    ensures IsSubsequence(r, entries)
    ensures forall e :: e in r ==> e in entries && Matches(e, query)
    ensures forall i :: 0 <= i < |entries| && Matches(entries[i], query) ==> entries[i] in r
  {
    if entries == [] then []
    else if Matches(entries[0], query) then [entries[0]] + Filter(entries[1..], query)
    else Filter(entries[1..], query)
  }

  /** Each matching entry is kept as often as it occurs in the cache; a non-matching one never. */
  lemma {:induction false} FilterCount(entries: seq<Entry>, query: string, x: Entry)
    ensures multiset(Filter(entries, query))[x] == if Matches(x, query) then multiset(entries)[x] else 0
  {
    if entries != [] {
      FilterCount(entries[1..], query, x);
      assert entries == [entries[0]] + entries[1..];
      assert multiset(entries) == multiset([entries[0]]) + multiset(entries[1..]);
      if Matches(entries[0], query) {
        assert multiset(Filter(entries, query)) == multiset([entries[0]]) + multiset(Filter(entries[1..], query));
      }
    }
  }

  /** Searching a concatenation searches each part. */
  lemma {:induction false} FilterAppend(a: seq<Entry>, b: seq<Entry>, query: string)
    ensures Filter(a + b, query) == Filter(a, query) + Filter(b, query)
  {
    if a != [] {
      assert (a + b)[0] == a[0] && (a + b)[1..] == a[1..] + b;
      FilterAppend(a[1..], b, query);
      if Matches(a[0], query) {
        assert Filter(a + b, query) == [a[0]] + (Filter(a[1..], query) + Filter(b, query));
        assert Filter(a, query) == [a[0]] + Filter(a[1..], query);
      }
    } else {
      assert a + b == b;
    }
  }

  /** When every entry matches, the search returns the list unchanged. */
  lemma {:induction false} FilterAllMatch(entries: seq<Entry>, query: string)
    requires forall i :: 0 <= i < |entries| ==> Matches(entries[i], query)
    ensures Filter(entries, query) == entries
  {
    if entries != [] {
      FilterAllMatch(entries[1..], query);
    }
  }

  /** The empty query keeps every entry, in order. */
  lemma FilterEmptyQuery(entries: seq<Entry>)
    ensures Filter(entries, "") == entries
  {
    FilterAllMatch(entries, "");
  }

  /** The search ignores the case of the query. */
  lemma {:induction false} FilterQueryCase(entries: seq<Entry>, query: string)
    ensures Filter(entries, Lower(query)) == Filter(entries, query)
  {
    LowerIdempotent(query);
    if entries != [] {
      FilterQueryCase(entries[1..], query);
    }
  }

  /** Searching the result of a search again changes nothing. */
  lemma {:induction false} FilterIdempotent(entries: seq<Entry>, query: string)
    ensures Filter(Filter(entries, query), query) == Filter(entries, query)
  {
    var r := Filter(entries, query);
    forall i | 0 <= i < |r| ensures Matches(r[i], query) {
      assert r[i] in r;
    }
    FilterAllMatch(r, query);
  }

  // ---------------------------------------------------------------- labels

  /** A valid `datetime` as far as the label's fields go. */
  predicate ValidDateTime(d: DateTime) {
    1 <= d.year <= 9999 && 1 <= d.month <= 12 && 1 <= d.day <= 31 && d.hour < 24 && d.minute < 60
  }

  /** `strftime('%Y-%m-%d %H:%M')`. */
  function Strftime(d: DateTime): (r: string)
    ensures ValidDateTime(d) ==> |r| == 16 && r[4] == '-' && r[7] == '-' && r[10] == ' ' && r[13] == ':'
    ensures ValidDateTime(d) ==> forall k :: k in {0, 1, 2, 3, 5, 6, 8, 9, 11, 12, 14, 15} ==> IsDigit(r[k])
  {
    assert Pow10(2) == 100;
    assert Pow10(4) == 10000;
    Pad(d.year, 4) + "-" + Pad(d.month, 2) + "-" + Pad(d.day, 2) + " " + Pad(d.hour, 2) + ":" + Pad(d.minute, 2)
  }

  /** Reads a `%Y-%m-%d %H:%M` string back into its fields. */
  function ParseTime(s: string): DateTime
    requires |s| == 16
  {
    DateTime(DecimalValue(s[0..4]), DecimalValue(s[5..7]), DecimalValue(s[8..10]),
             DecimalValue(s[11..13]), DecimalValue(s[14..16]))
  }

  /** The formatted timestamp has the fixed shape `YYYY-MM-DD HH:MM` and reads back as the same moment. */
  lemma StrftimeRoundTrip(d: DateTime)
    requires ValidDateTime(d)
    ensures |Strftime(d)| == 16
    ensures Strftime(d)[4] == '-' && Strftime(d)[7] == '-' && Strftime(d)[10] == ' ' && Strftime(d)[13] == ':'
    ensures ParseTime(Strftime(d)) == d
  {
    assert Pow10(2) == 100;
    assert Pow10(4) == 10000;
    var y, mo, da, h, mi := Pad(d.year, 4), Pad(d.month, 2), Pad(d.day, 2), Pad(d.hour, 2), Pad(d.minute, 2);
    var s := Strftime(d);
    assert s == y + "-" + mo + "-" + da + " " + h + ":" + mi;
    assert s[0..4] == y;
    assert s[5..7] == mo;
    assert s[8..10] == da;
    assert s[11..13] == h;
    assert s[14..16] == mi;
  }

  /** The title shown: the stored one, or "Entry <n>" with n the 1-based position in the filtered list. */
  function TitleShown(e: Entry, idx: nat): (r: string)
    ensures e.title.Some? ==> r == e.title.value
    ensures e.title == None ==> |r| > 6 && r[..6] == "Entry " && r[6..] == NatToString(idx + 1)
  {
    e.title.GetOr("Entry " + NatToString(idx + 1))
  }

  /** The timestamp shown: the placeholder gets a clock, a `datetime` is formatted, any other string
      is shown as it is, and a missing one is reported. */
  function StampShown(stamp: Option<Stamp>): (r: string)
    ensures stamp == None ==> r == NoTimestamp
    ensures stamp == Some(Plain(JustNow)) ==> r == JustNowShown
    ensures stamp.Some? && stamp.value.Plain? && stamp.value.s != JustNow ==> r == stamp.value.s
    ensures stamp.Some? && stamp.value.Moment? ==> r == Strftime(stamp.value.t)
    ensures stamp.Some? && stamp.value.Moment? && ValidDateTime(stamp.value.t) ==>
              |r| == 16 && ParseTime(r) == stamp.value.t
  {
    match stamp
    case None => NoTimestamp
    case Some(Plain(s)) => if s == JustNow then JustNowShown else s
    case Some(Moment(t)) =>
      if ValidDateTime(t) then StrftimeRoundTrip(t); Strftime(t) else Strftime(t)
  }

  /** The expander label `f"{title} - {timestamp}"` of the entry at position `idx` of the filtered list. */
  function Label(e: Entry, idx: nat): (r: string)
    ensures |r| == |TitleShown(e, idx)| + 3 + |StampShown(e.createdAt)|
    ensures r[..|TitleShown(e, idx)|] == TitleShown(e, idx)
    ensures r[|TitleShown(e, idx)|..|TitleShown(e, idx)| + 3] == " - "
    ensures r[|r| - |StampShown(e.createdAt)|..] == StampShown(e.createdAt)
  {
    TitleShown(e, idx) + " - " + StampShown(e.createdAt)
  }

  /** The body of the expander: the text, or a notice when it is missing. */
  function BodyShown(e: Entry): (r: string)
    ensures e.text.Some? ==> r == e.text.value
    ensures e.text == None ==> r == NoText
  {
    e.text.GetOr(NoText)
  }

  /** A freshly saved entry is labelled with its title and the clock placeholder. */
  lemma LabelOfSaved(title: string, text: string, docId: string, idx: nat)
    ensures Label(SavedEntry(title, text, docId), idx) == title + " - " + JustNowShown
    ensures BodyShown(SavedEntry(title, text, docId)) == text
  {
  }

  /** An entry without a `createdAt` says so in its label. */
  lemma LabelWithoutStamp(e: Entry, idx: nat)
    requires e.createdAt == None
    ensures Label(e, idx) == TitleShown(e, idx) + " - " + NoTimestamp
  {
  }

  /** Two untitled entries with the same timestamp at different positions get different labels. */
  lemma UntitledLabelsDistinct(e1: Entry, e2: Entry, i: nat, j: nat)
    requires e1.title == None && e2.title == None && e1.createdAt == e2.createdAt && i != j
    ensures Label(e1, i) != Label(e2, j)
  {
    var a, b := NatToString(i + 1), NatToString(j + 1);
    var tail := " - " + StampShown(e1.createdAt);
    if Label(e1, i) == Label(e2, j) {
      assert Label(e1, i) == "Entry " + a + tail;
      assert Label(e2, j) == "Entry " + b + tail;
      assert |a| == |b|;
      assert a == Label(e1, i)[6..6 + |a|];
      assert b == Label(e2, j)[6..6 + |b|];
      NatToStringInjective(i + 1, j + 1);
      assert false;
    }
  }

  /** An item of the rendered list: the expander's label and the text inside it. */
  datatype Item = Item(caption: string, body: string)

  /** The `enumerate(filtered_entries)` loop: one item per entry, labelled by its position. */
  function Items(shown: seq<Entry>): (r: seq<Item>)
    ensures |r| == |shown|
    ensures forall k :: 0 <= k < |shown| ==> r[k] == Item(Label(shown[k], k), BodyShown(shown[k]))
  {
    seq(|shown|, k requires 0 <= k < |shown| => Item(Label(shown[k], k), BodyShown(shown[k])))
  }
}
