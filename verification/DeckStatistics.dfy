/** The statistics taken from a collection file: `extract_stats` and the two deck-name parsers. */
module DeckStatistics {
  import opened ByteText
  import opened Backup

  /** The tables of a collection that are read.  A query on a missing table, or one that meets a
      value of another type, fails. */
  datatype Collection = Collection(
    cards: Option<seq<int>>,                        // the did column of cards
    notes: Option<nat>,                             // the number of rows
    revlog: Option<nat>,
    decks: Option<seq<Option<(int, string)>>>,      // rows of decks; None for a row that does not convert
    colDecks: Option<JsonValue>)                    // the JSON in col.decks; None if absent or malformed

  /** As much of a JSON value as is looked at: the members of an object with their `name`, if a string. */
  datatype JsonValue = Object(members: seq<(string, Option<string>)>) | OtherValue

  type Names = map<int, string>

  // ----- i64::from_str

  const MIN_I64: int := -0x8000_0000_0000_0000
  const MAX_I64: int := 0x7FFF_FFFF_FFFF_FFFF

  /** An optional sign, at least one digit, and a value in range. */
  function ParseI64(s: string): Option<int> {
    var signed := s != "" && (s[0] == '+' || s[0] == '-');
    var digits := if signed then s[1..] else s;
    var v := ParseDigits(digits);
    if digits == "" || v.None? then None
    else
      var n: int := if signed && s[0] == '-' then 0 - v.value as int else v.value;
      if MIN_I64 <= n <= MAX_I64 then Some(n) else None
  }

  lemma {:induction false} DecimalParses(n: nat)
    ensures ParseDigits(Decimal(n)) == Some(n)
  {
    if n >= 10 {
      DecimalParses(n / 10);
      assert Decimal(n)[..|Decimal(n)| - 1] == Decimal(n / 10);
    } else {
      assert Decimal(n)[..0] == "";
    }
  }

  lemma {:induction false} DecimalHasDigits(n: nat)
    ensures '0' <= Decimal(n)[0] <= '9'
  {
    if n >= 10 { DecimalHasDigits(n / 10); }
  }

  lemma SignedParses(sign: string, digits: string, m: nat)
    requires (sign == "" || sign == "+" || sign == "-") && digits != "" && '0' <= digits[0] <= '9'
    requires ParseDigits(digits) == Some(m)
    ensures ParseI64(sign + digits) ==
            var n: int := if sign == "-" then 0 - m else m;
            if MIN_I64 <= n <= MAX_I64 then Some(n) else None
  {
    if sign == "" { assert sign + digits == digits; } else { assert (sign + digits)[1..] == digits; }
  }

  /** A printed deck id reads back. */
  lemma I64RoundTrip(n: int)
    requires MIN_I64 <= n <= MAX_I64
    ensures ParseI64(SignedDecimal(n)) == Some(n)
  {
    var m: nat := if n < 0 then -n else n;
    DecimalParses(m);
    DecimalHasDigits(m);
    SignedParses(if n < 0 then "-" else "", Decimal(m), m);
    assert "" + Decimal(m) == Decimal(m);
  }

  /** What stands behind an optional sign. */
  function Unsigned(s: string): string { if s != "" && (s[0] == '+' || s[0] == '-') then s[1..] else s }

  lemma {:induction false} DigitsOnly(s: string, i: nat)
    requires i < |s| && !('0' <= s[i] <= '9')
    ensures ParseDigits(s).None?
  {
    if i < |s| - 1 { DigitsOnly(s[..|s| - 1], i); }
  }

  /** No number without a digit, or with anything but digits behind the sign. */
  lemma I64Rejects(s: string, i: nat)
    requires Unsigned(s) == "" || (i < |Unsigned(s)| && !('0' <= Unsigned(s)[i] <= '9'))
    ensures ParseI64(s).None?
  {
    if Unsigned(s) != "" { DigitsOnly(Unsigned(s), i); }
  }

  lemma {:induction false} LeadingZeros(k: nat, s: string)
    requires s != "" && ParseDigits(s).Some?
    ensures ParseDigits(seq(k, i => '0') + s) == ParseDigits(s)
    decreases |s|
  {
    var zeros := seq(k, i => '0');
    assert (zeros + s)[..k + |s| - 1] == zeros + s[..|s| - 1];
    if |s| == 1 {
      AllZeros(k);
      assert zeros + s[..0] == zeros;
    } else {
      LeadingZeros(k, s[..|s| - 1]);
    }
  }

  lemma {:induction false} AllZeros(k: nat)
    ensures ParseDigits(seq(k, i => '0')) == Some(0)
  {
    if k > 0 {
      AllZeros(k - 1);
      assert seq(k, i => '0')[..k - 1] == seq(k - 1, i => '0');
    }
  }

  /** Any sign, any number of leading zeros, and a value that fits 64 bits. */
  lemma I64Accepts(sign: string, zeros: nat, m: nat)
    requires sign == "" || sign == "+" || sign == "-"
    ensures ParseI64(sign + (seq(zeros, i => '0') + Decimal(m))) ==
            var n: int := if sign == "-" then 0 - m else m;
            if -9_223_372_036_854_775_808 <= n <= 9_223_372_036_854_775_807 then Some(n) else None
  {
    var digits := seq(zeros, i => '0') + Decimal(m);
    DecimalParses(m);
    LeadingZeros(zeros, Decimal(m));
    DecimalHasDigits(m);
    assert digits[0] == if zeros > 0 then '0' else Decimal(m)[0];
    SignedParses(sign, digits, m);
  }

  // ----- deck names

  /** Later rows win, as with `HashMap::insert`. */
  function NamesOf(rows: seq<(int, string)>): Names {
    if rows == [] then map[] else NamesOf(rows[..|rows| - 1])[rows[|rows| - 1].0 := rows[|rows| - 1].1]
  }

  /** The rows that convert, up to the first that does not; whether all did. */
  function Converted(rows: seq<Option<(int, string)>>): Option<seq<(int, string)>> {
    if rows == [] then Some([])
    else
      var front := Converted(rows[..|rows| - 1]);
      if front.None? || rows[|rows| - 1].None? then None else Some(front.value + [rows[|rows| - 1].value])
  }

  /** `parse_deck_names_new`. */
  method ParseDeckNamesNew(decks: Option<seq<Option<(int, string)>>>) returns (names: Option<Names>)
    ensures names.Some? <==> decks.Some? && Converted(decks.value).Some?
    ensures names.Some? ==> names.value == NamesOf(Converted(decks.value).value)
  {
    if decks.None? { return None; }
    var rows := decks.value;
    var out: Names := map[];
    var i := 0;
    while i < |rows|
      invariant 0 <= i <= |rows|
      invariant Converted(rows[..i]).Some? && out == NamesOf(Converted(rows[..i]).value)
    {
      assert rows[..i + 1][..i] == rows[..i];
      if rows[i].None? {
        ConvertedPrefix(rows, i + 1);
        return None;
      }
      var (id, name) := rows[i].value;
      ghost var before := Converted(rows[..i]).value;
      assert (before + [(id, name)])[..|before|] == before;
      out := out[id := name];
      i := i + 1;
    }
    assert rows[..i] == rows;
    names := Some(out);
  }

  lemma {:induction false} ConvertedPrefix(rows: seq<Option<(int, string)>>, i: nat)
    requires i <= |rows| && Converted(rows[..i]).None?
    ensures Converted(rows).None?
    decreases |rows|
  {
    if i == |rows| {
      assert rows[..i] == rows;
    } else {
      var front := rows[..|rows| - 1];
      assert front[..i] == rows[..i];
      ConvertedPrefix(front, i);
    }
  }

  /** The members with a numeric key and a string name, in order. */
  function NamedDecks(members: seq<(string, Option<string>)>): seq<(int, string)> {
    if members == [] then []
    else
      var (key, name) := members[|members| - 1];
      var front := NamedDecks(members[..|members| - 1]);
      var id := ParseI64(key);
      if id.Some? && name.Some? then front + [(id.value, name.value)] else front
  }

  /** `parse_deck_names_legacy`; other members are passed over. */
  method ParseDeckNamesLegacy(json: Option<JsonValue>) returns (names: Option<Names>)
    ensures names.Some? <==> json.Some? && json.value.Object?
    ensures names.Some? ==> names.value == NamesOf(NamedDecks(json.value.members))
  {
    if json.None? || !json.value.Object? { return None; }
    var members := json.value.members;
    var out: Names := map[];
    var i := 0;
    while i < |members|
      invariant 0 <= i <= |members|
      invariant out == NamesOf(NamedDecks(members[..i]))
    {
      assert members[..i + 1][..i] == members[..i];
      var (key, name) := members[i];
      var id := ParseI64(key);
      if id.Some? && name.Some? {
        ghost var before := NamedDecks(members[..i]);
        assert (before + [(id.value, name.value)])[..|before|] == before;
        out := out[id.value := name.value];
      }
      i := i + 1;
    }
    assert members[..i] == members;
    names := Some(out);
  }

  /** The legacy JSON that holds the same decks as rows of the `decks` table. */
  function LegacyOf(rows: seq<(int, string)>): seq<(string, Option<string>)> {
    seq(|rows|, i requires 0 <= i < |rows| => (SignedDecimal(rows[i].0), Some(rows[i].1)))
  }

  /** The same decks have the same names in either schema. */
  lemma {:induction false} SchemasAgree(rows: seq<(int, string)>)
    requires forall i :: 0 <= i < |rows| ==> MIN_I64 <= rows[i].0 <= MAX_I64
    ensures NamedDecks(LegacyOf(rows)) == rows
  {
    if rows != [] {
      var front := rows[..|rows| - 1];
      var l := LegacyOf(rows);
      SchemasAgree(front);
      assert l[..|l| - 1] == LegacyOf(front);
      I64RoundTrip(rows[|rows| - 1].0);
      assert rows == front + [rows[|rows| - 1]];
    }
  }

  // ----- cards per deck

  function Count(dids: seq<int>, did: int): nat {
    if dids == [] then 0 else Count(dids[..|dids| - 1], did) + (if dids[|dids| - 1] == did then 1 else 0)
  }

  function Total(ds: seq<DeckStats>): nat {
    if ds == [] then 0 else Total(ds[..|ds| - 1]) + ds[|ds| - 1].cardCount
  }

  /** `GROUP BY did`: every deck id of the cards once, with its number of cards, in some order. */
  ghost predicate Grouped(dids: seq<int>, groups: seq<(int, nat)>) {
    && (forall i, j :: 0 <= i < j < |groups| ==> groups[i].0 != groups[j].0)
    && (forall i :: 0 <= i < |groups| ==> groups[i].0 in dids && groups[i].1 == Count(dids, groups[i].0))
    && (forall did :: did in dids ==> HasGroup(groups, did))
  }

  ghost predicate HasGroup(groups: seq<(int, nat)>, did: int) {
    exists i :: 0 <= i < |groups| && groups[i].0 == did
  }

  function GroupTotal(groups: seq<(int, nat)>): nat {
    if groups == [] then 0 else GroupTotal(groups[..|groups| - 1]) + groups[|groups| - 1].1
  }

  function WithoutDeck(dids: seq<int>, did: int): seq<int> {
    if dids == [] then []
    else
      var front := WithoutDeck(dids[..|dids| - 1], did);
      if dids[|dids| - 1] == did then front else front + [dids[|dids| - 1]]
  }

  lemma {:induction false} WithoutDeckCounts(dids: seq<int>, did: int)
    ensures |WithoutDeck(dids, did)| + Count(dids, did) == |dids|
    ensures forall d :: d != did ==> Count(WithoutDeck(dids, did), d) == Count(dids, d)
    ensures forall d :: d in WithoutDeck(dids, did) <==> d in dids && d != did
  {
    if dids != [] {
      var last, front := dids[|dids| - 1], dids[..|dids| - 1];
      WithoutDeckCounts(front, did);
      assert dids == front + [last];
      if last != did {
        var w := WithoutDeck(front, did);
        assert (w + [last])[..|w|] == w;
      }
    }
  }

  /** The group counts add up to the number of cards. */
  lemma {:induction false} GroupsAddUp(dids: seq<int>, groups: seq<(int, nat)>)
    requires Grouped(dids, groups)
    ensures GroupTotal(groups) == |dids|
    decreases groups
  {
    if groups == [] {
      assert dids == [] || HasGroup(groups, dids[0]);
    } else {
      var (did, n) := groups[|groups| - 1];
      var front := groups[..|groups| - 1];
      WithoutDeckCounts(dids, did);
      forall d | d in WithoutDeck(dids, did) ensures HasGroup(front, d) {
        var i :| 0 <= i < |groups| && groups[i].0 == d;
        assert front[i].0 == d;
      }
      GroupsAddUp(WithoutDeck(dids, did), front);
    }
  }

  // ----- sorting by name

  /** Earlier decks stay before later ones of the same name. */
  function InsertByName(d: DeckStats, ds: seq<DeckStats>): seq<DeckStats> {
    if ds == [] || !Less(ds[0].deckName, d.deckName) then [d] + ds else [ds[0]] + InsertByName(d, ds[1..])
  }

  /** `sort_by` on the deck name. */
  function SortByName(ds: seq<DeckStats>): seq<DeckStats> {
    if ds == [] then [] else InsertByName(ds[0], SortByName(ds[1..]))
  }

  ghost predicate NameOrder(ds: seq<DeckStats>) {
    |ds| <= 1 || (!Less(ds[1].deckName, ds[0].deckName) && NameOrder(ds[1..]))
  }

  lemma {:induction false} InsertKeepsOrder(d: DeckStats, ds: seq<DeckStats>)
    requires NameOrder(ds)
    ensures NameOrder(InsertByName(d, ds))
    ensures InsertByName(d, ds)[0] == (if ds == [] || !Less(ds[0].deckName, d.deckName) then d else ds[0])
  {
    var r := InsertByName(d, ds);
    if ds == [] {
    } else if Less(ds[0].deckName, d.deckName) {
      InsertKeepsOrder(d, ds[1..]);
      assert r[1..] == InsertByName(d, ds[1..]);
      LessTotal(ds[0].deckName, d.deckName);
    } else {
      assert r[1..] == ds;
    }
  }

  lemma {:induction false} SortSorts(ds: seq<DeckStats>)
    ensures NameOrder(SortByName(ds))
  {
    if ds != [] {
      SortSorts(ds[1..]);
      InsertKeepsOrder(ds[0], SortByName(ds[1..]));
    }
  }

  /** Adjacent order is order throughout. */
  lemma {:induction false} NameOrderAt(ds: seq<DeckStats>, i: nat, j: nat)
    requires NameOrder(ds) && i < j < |ds|
    ensures !Less(ds[j].deckName, ds[i].deckName)
  {
    if i > 0 {
      NameOrderAt(ds[1..], i - 1, j - 1);
    } else if j > 1 {
      NameOrderAt(ds[1..], 0, j - 1);
      if Less(ds[j].deckName, ds[0].deckName) {
        LessTotal(ds[0].deckName, ds[1].deckName);
        if ds[0].deckName != ds[1].deckName { LessTransitive(ds[j].deckName, ds[0].deckName, ds[1].deckName); }
      }
    }
  }

  lemma {:induction false} InsertKeepsElements(d: DeckStats, ds: seq<DeckStats>)
    ensures multiset(InsertByName(d, ds)) == multiset([d] + ds)
  {
    if ds != [] {
      assert ds == [ds[0]] + ds[1..];
      InsertKeepsElements(d, ds[1..]);
    }
  }

  lemma {:induction false} SortKeepsElements(ds: seq<DeckStats>)
    ensures multiset(SortByName(ds)) == multiset(ds)
  {
    if ds != [] {
      SortKeepsElements(ds[1..]);
      InsertKeepsElements(ds[0], SortByName(ds[1..]));
      assert ds == [ds[0]] + ds[1..];
    }
  }

  /** The decks of one name, in order. */
  function OfName(ds: seq<DeckStats>, name: string): seq<DeckStats> {
    if ds == [] then [] else (if ds[0].deckName == name then [ds[0]] else []) + OfName(ds[1..], name)
  }

  lemma {:induction false} InsertIsStable(d: DeckStats, ds: seq<DeckStats>, name: string)
    ensures OfName(InsertByName(d, ds), name) == OfName([d] + ds, name)
  {
    assert ([d] + ds)[1..] == ds;
    if ds != [] && Less(ds[0].deckName, d.deckName) {
      InsertIsStable(d, ds[1..], name);
      LessTotal(ds[0].deckName, d.deckName);
      assert ([d] + ds[1..])[1..] == ds[1..];
      assert InsertByName(d, ds)[1..] == InsertByName(d, ds[1..]);
    }
  }

  /** `sort_by` is stable: decks of equal names keep their order. */
  lemma {:induction false} SortIsStable(ds: seq<DeckStats>, name: string)
    ensures OfName(SortByName(ds), name) == OfName(ds, name)
  {
    if ds != [] {
      SortIsStable(ds[1..], name);
      InsertIsStable(ds[0], SortByName(ds[1..]), name);
      assert ([ds[0]] + SortByName(ds[1..]))[1..] == SortByName(ds[1..]);
    }
  }

  lemma {:induction false} TotalCons(d: DeckStats, ds: seq<DeckStats>)
    ensures Total([d] + ds) == d.cardCount + Total(ds)
  {
    if ds == [] {
      assert [d] + ds == [d] && [d][..0] == [];
    } else {
      var front := ds[..|ds| - 1];
      assert ([d] + ds)[..|ds|] == [d] + front;
      TotalCons(d, front);
    }
  }

  lemma {:induction false} InsertKeepsTotal(d: DeckStats, ds: seq<DeckStats>)
    ensures Total(InsertByName(d, ds)) == d.cardCount + Total(ds)
  {
    TotalCons(d, ds);
    if ds != [] && Less(ds[0].deckName, d.deckName) {
      InsertKeepsTotal(d, ds[1..]);
      TotalCons(ds[0], InsertByName(d, ds[1..]));
      TotalCons(ds[0], ds[1..]);
      assert ds == [ds[0]] + ds[1..];
    }
  }

  lemma {:induction false} SortKeepsTotal(ds: seq<DeckStats>)
    ensures Total(SortByName(ds)) == Total(ds)
  {
    if ds != [] {
      SortKeepsTotal(ds[1..]);
      InsertKeepsTotal(ds[0], SortByName(ds[1..]));
      TotalCons(ds[0], ds[1..]);
      assert ds == [ds[0]] + ds[1..];
    }
  }

  // ----- extract_stats

  function DeckOf(names: Names, group: (int, nat)): DeckStats {
    DeckStats(group.0, if group.0 in names then names[group.0] else "Deck " + SignedDecimal(group.0), group.1)
  }

  function DecksOf(names: Names, groups: seq<(int, nat)>): (ds: seq<DeckStats>)
    ensures |ds| == |groups|
  {
    seq(|groups|, i requires 0 <= i < |groups| => DeckOf(names, groups[i]))
  }

  /** The `decks` table when it can be read in full, else the JSON of older schemas. */
  function NamesIn(c: Collection): Option<Names> {
    if c.decks.Some? && Converted(c.decks.value).Some? then Some(NamesOf(Converted(c.decks.value).value))
    else if c.colDecks.Some? && c.colDecks.value.Object? then Some(NamesOf(NamedDecks(c.colDecks.value.members)))
    else None
  }

  method ExtractDeckNames(c: Collection) returns (names: Option<Names>)
    ensures names == NamesIn(c)
  {
    names := ParseDeckNamesNew(c.decks);
    if names.None? { names := ParseDeckNamesLegacy(c.colDecks); }
  }

  /** One entry for each deck that has cards, with the number of its cards. */
  ghost predicate PerDeck(dids: seq<int>, ds: seq<DeckStats>) {
    && (forall d :: d in ds ==> d.deckId in dids && d.cardCount == Count(dids, d.deckId))
    && (forall did :: did in dids ==> exists d :: d in ds && d.deckId == did)
    && (forall did :: IdCount(ds, did) <= 1)
  }

  function IdCount(ds: seq<DeckStats>, did: int): nat {
    if ds == [] then 0 else (if ds[0].deckId == did then 1 else 0) + IdCount(ds[1..], did)
  }

  lemma {:induction false} InsertKeepsIds(d: DeckStats, ds: seq<DeckStats>, did: int)
    ensures IdCount(InsertByName(d, ds), did) == IdCount([d] + ds, did)
  {
    assert ([d] + ds)[1..] == ds;
    if ds != [] && Less(ds[0].deckName, d.deckName) {
      InsertKeepsIds(d, ds[1..], did);
      assert ([d] + ds[1..])[1..] == ds[1..];
      assert InsertByName(d, ds)[1..] == InsertByName(d, ds[1..]);
    }
  }

  lemma {:induction false} SortKeepsIds(ds: seq<DeckStats>, did: int)
    ensures IdCount(SortByName(ds), did) == IdCount(ds, did)
  {
    if ds != [] {
      SortKeepsIds(ds[1..], did);
      InsertKeepsIds(ds[0], SortByName(ds[1..]), did);
      assert ([ds[0]] + SortByName(ds[1..]))[1..] == SortByName(ds[1..]);
    }
  }

  lemma {:induction false} GroupIdsOnce(names: Names, groups: seq<(int, nat)>, did: int)
    requires forall i, j :: 0 <= i < j < |groups| ==> groups[i].0 != groups[j].0
    ensures IdCount(DecksOf(names, groups), did) == if HasGroup(groups, did) then 1 else 0
    decreases groups
  {
    if groups != [] {
      assert DecksOf(names, groups)[1..] == DecksOf(names, groups[1..]);
      GroupIdsOnce(names, groups[1..], did);
      assert forall i :: 0 <= i < |groups| - 1 ==> groups[1..][i] == groups[i + 1];
      if i :| 0 <= i < |groups| && groups[i].0 == did {
        if i > 0 { assert groups[1..][i - 1].0 == did; }
      }
    }
  }

  lemma SortedPerDeck(dids: seq<int>, groups: seq<(int, nat)>, names: Names)
    requires Grouped(dids, groups)
    ensures PerDeck(dids, SortByName(DecksOf(names, groups)))
  {
    var ds := DecksOf(names, groups);
    SortedElements(ds);
    forall did ensures IdCount(SortByName(ds), did) <= 1 {
      SortKeepsIds(ds, did);
      GroupIdsOnce(names, groups, did);
    }
    forall d | d in ds ensures d.deckId in dids && d.cardCount == Count(dids, d.deckId) {
      var i :| 0 <= i < |ds| && ds[i] == d;
      assert groups[i].0 == d.deckId;
    }
    forall did | did in dids ensures exists d :: d in SortByName(ds) && d.deckId == did {
      assert HasGroup(groups, did);
      var i :| 0 <= i < |groups| && groups[i].0 == did;
      assert ds[i] in ds;
    }
  }

  lemma SortedElements(ds: seq<DeckStats>)
    ensures forall d :: d in SortByName(ds) <==> d in ds
  {
    SortKeepsElements(ds);
    forall d ensures d in SortByName(ds) <==> d in ds { assert d in multiset(SortByName(ds)) <==> d in multiset(ds); }
  }

  lemma {:induction false} DecksTotal(names: Names, groups: seq<(int, nat)>)
    ensures Total(DecksOf(names, groups)) == GroupTotal(groups)
  {
    if groups != [] {
      var front := groups[..|groups| - 1];
      DecksTotal(names, front);
      assert DecksOf(names, groups)[..|groups| - 1] == DecksOf(names, front);
    }
  }

  /** The statistics of a collection whose cards are grouped as `groups`. */
  function StatsOf(c: Collection, groups: seq<(int, nat)>): Option<BackupStats> {
    if c.cards.None? || c.notes.None? || c.revlog.None? || NamesIn(c).None? then None
    else
      var names := NamesIn(c).value;
      Some(BackupStats(|c.cards.value|, |names|, c.notes.value, c.revlog.value, SortByName(DecksOf(names, groups))))
  }

  lemma StatsOfCorrect(c: Collection, groups: seq<(int, nat)>)
    requires c.cards.Some? && Grouped(c.cards.value, groups) && StatsOf(c, groups).Some?
    ensures var r := StatsOf(c, groups).value;
            && NameOrder(r.deckStats) && PerDeck(c.cards.value, r.deckStats) && Total(r.deckStats) == r.totalCards
            && (forall d :: d in r.deckStats ==> d == DeckOf(NamesIn(c).value, (d.deckId, d.cardCount)))
  {
    var names := NamesIn(c).value;
    var ds := DecksOf(names, groups);
    SortSorts(ds);
    SortedPerDeck(c.cards.value, groups, names);
    SortKeepsTotal(ds);
    DecksTotal(names, groups);
    GroupsAddUp(c.cards.value, groups);
    NamesKept(names, groups);
  }

  // ----- the names, from the tables alone

  ghost predicate Readable(c: Collection) {
    c.decks.Some? && forall i :: 0 <= i < |c.decks.value| ==> c.decks.value[i].Some?
  }

  /** The decks in the legacy JSON: members whose key is a number and whose name is a string. */
  ghost function Listed(members: seq<(string, Option<string>)>): (v: seq<Option<(int, string)>>)
    ensures |v| == |members|
  {
    seq(|members|, i requires 0 <= i < |members| =>
      var (key, name) := members[i];
      if ParseI64(key).Some? && name.Some? then Some((ParseI64(key).value, name.value)) else None)
  }

  ghost predicate Mentions(v: seq<Option<(int, string)>>, id: int) {
    exists i :: 0 <= i < |v| && v[i].Some? && v[i].value.0 == id
  }

  /** Entry `i` names its deck and no later one does. */
  ghost predicate Final(v: seq<Option<(int, string)>>, i: nat) {
    i < |v| && v[i].Some? && forall j :: i < j < |v| && v[j].Some? ==> v[j].value.0 != v[i].value.0
  }

  ghost predicate LastWins(v: seq<Option<(int, string)>>, names: Names) {
    && (forall id :: id in names <==> Mentions(v, id))
    && (forall i :: 0 <= i < |v| && Final(v, i) ==> v[i].value.0 in names && names[v[i].value.0] == v[i].value.1)
  }

  ghost function MentionedIds(v: seq<Option<(int, string)>>): set<int> {
    set i | 0 <= i < |v| && v[i].Some? :: v[i].value.0
  }

  lemma LastWinsNext(v: seq<Option<(int, string)>>, names: Names)
    requires v != [] && LastWins(v[..|v| - 1], names)
    ensures LastWins(v, if v[|v| - 1].Some? then names[v[|v| - 1].value.0 := v[|v| - 1].value.1] else names)
  {
    var front, last := v[..|v| - 1], v[|v| - 1];
    assert v == front + [last];
    forall id ensures Mentions(v, id) <==> Mentions(front, id) || (last.Some? && last.value.0 == id) {
      if Mentions(front, id) {
        var i :| 0 <= i < |front| && front[i].Some? && front[i].value.0 == id;
        assert v[i] == front[i];
      }
      if last.Some? && last.value.0 == id { assert v[|v| - 1].value.0 == id; }
    }
    forall i | 0 <= i < |v| - 1 && Final(v, i)
      ensures Final(front, i) && (last.Some? ==> last.value.0 != front[i].value.0)
    {
      assert front[i] == v[i];
    }
  }

  lemma {:induction false} TableNames(v: seq<Option<(int, string)>>)
    requires Converted(v).Some?
    ensures LastWins(v, NamesOf(Converted(v).value))
  {
    if v != [] {
      var front := v[..|v| - 1];
      TableNames(front);
      var rows := Converted(front).value;
      assert (rows + [v[|v| - 1].value])[..|rows|] == rows;
      LastWinsNext(v, NamesOf(rows));
    }
  }

  lemma {:induction false} LegacyNames(members: seq<(string, Option<string>)>)
    ensures LastWins(Listed(members), NamesOf(NamedDecks(members)))
  {
    if members != [] {
      var front := members[..|members| - 1];
      LegacyNames(front);
      assert Listed(members)[..|members| - 1] == Listed(front);
      var decks := NamedDecks(front);
      var last := Listed(members)[|members| - 1];
      if last.Some? { assert (decks + [last.value])[..|decks|] == decks; }
      LastWinsNext(Listed(members), NamesOf(decks));
    }
  }

  lemma {:induction false} ConvertedExactlyWhen(v: seq<Option<(int, string)>>)
    ensures Converted(v).Some? <==> forall i :: 0 <= i < |v| ==> v[i].Some?
  {
    if v != [] { ConvertedExactlyWhen(v[..|v| - 1]); }
  }

  /** What the statistics say of names: as many decks as ids are mentioned, and each deck with cards has the
      name given last for its id, or its id for a name if none is given. */
  ghost predicate NamedAfter(v: seq<Option<(int, string)>>, stats: BackupStats) {
    && stats.totalDecks == |MentionedIds(v)|
    && (forall d, i :: d in stats.deckStats && 0 <= i < |v| && Final(v, i) && v[i].value.0 == d.deckId ==>
          d.deckName == v[i].value.1)
    && (forall d :: d in stats.deckStats && !Mentions(v, d.deckId) ==>
          d.deckName == "Deck " + SignedDecimal(d.deckId))
  }

  lemma NamedAfterNames(v: seq<Option<(int, string)>>, names: Names, stats: BackupStats)
    requires LastWins(v, names) && stats.totalDecks == |names|
    requires forall d :: d in stats.deckStats ==> d == DeckOf(names, (d.deckId, d.cardCount))
    ensures NamedAfter(v, stats)
  {
    forall id ensures id in MentionedIds(v) <==> id in names {
      assert id in MentionedIds(v) <==> Mentions(v, id);
    }
    assert MentionedIds(v) == names.Keys;
  }

  /** The table wins whenever all of it can be read, else the legacy JSON counts. */
  lemma StatsAreNamed(c: Collection, groups: seq<(int, nat)>)
    requires c.cards.Some? && Grouped(c.cards.value, groups) && StatsOf(c, groups).Some?
    ensures Readable(c) || (c.colDecks.Some? && c.colDecks.value.Object?)
    ensures var v := if Readable(c) then c.decks.value else Listed(c.colDecks.value.members);
            NamedAfter(v, StatsOf(c, groups).value)
  {
    StatsOfCorrect(c, groups);
    if c.decks.Some? { ConvertedExactlyWhen(c.decks.value); }
    if Readable(c) {
      TableNames(c.decks.value);
      NamedAfterNames(c.decks.value, NamesIn(c).value, StatsOf(c, groups).value);
    } else {
      LegacyNames(c.colDecks.value.members);
      NamedAfterNames(Listed(c.colDecks.value.members), NamesIn(c).value, StatsOf(c, groups).value);
    }
  }

  /** `extract_stats`.  It succeeds when the three tables can be counted and deck names found in either
      schema.  The decks are in name order, one for each deck id among the cards, and their counts add
      up to the number of cards. */
  method ExtractStats(c: Collection, groups: seq<(int, nat)>) returns (r: Option<BackupStats>)
    requires c.cards.Some? ==> Grouped(c.cards.value, groups)
    ensures r == StatsOf(c, groups)
    ensures r.Some? <==> c.cards.Some? && c.notes.Some? && c.revlog.Some?
                         && (Readable(c) || (c.colDecks.Some? && c.colDecks.value.Object?))
    ensures r.Some? ==>
      NamedAfter(if Readable(c) then c.decks.value else Listed(c.colDecks.value.members), r.value)
    ensures r.Some? ==>
      && r.value.totalCards == |c.cards.value| && r.value.totalNotes == c.notes.value
      && r.value.totalRevlog == c.revlog.value
      && NameOrder(r.value.deckStats) && PerDeck(c.cards.value, r.value.deckStats)
      && Total(r.value.deckStats) == r.value.totalCards
  {
    if c.decks.Some? { ConvertedExactlyWhen(c.decks.value); }
    if c.cards.None? || c.notes.None? || c.revlog.None? { return None; }
    var names := ExtractDeckNames(c);
    if names.None? { return None; }
    var ds := NameDecks(names.value, groups);
    StatsOfCorrect(c, groups);
    StatsAreNamed(c, groups);
    r := Some(BackupStats(|c.cards.value|, |names.value|, c.notes.value, c.revlog.value, SortByName(ds)));
  }

  /** The loop over the groups. */
  method NameDecks(names: Names, groups: seq<(int, nat)>) returns (ds: seq<DeckStats>)
    ensures ds == DecksOf(names, groups)
  {
    ds := [];
    var i := 0;
    while i < |groups|
      invariant 0 <= i <= |groups|
      invariant ds == DecksOf(names, groups[..i])
    {
      var (did, count) := groups[i];
      var name := if did in names then names[did] else "Deck " + SignedDecimal(did);
      ds := ds + [DeckStats(did, name, count)];
      DecksOfNext(names, groups, i);
      i := i + 1;
    }
    assert groups[..i] == groups;
  }

  lemma DecksOfNext(names: Names, groups: seq<(int, nat)>, i: nat)
    requires i < |groups|
    ensures DecksOf(names, groups[..i + 1]) == DecksOf(names, groups[..i]) + [DeckOf(names, groups[i])]
  {
    assert groups[..i + 1] == groups[..i] + [groups[i]];
  }

  lemma NamesKept(names: Names, groups: seq<(int, nat)>)
    ensures forall d :: d in SortByName(DecksOf(names, groups)) ==> d == DeckOf(names, (d.deckId, d.cardCount))
  {
    var ds := DecksOf(names, groups);
    SortKeepsElements(ds);
    forall d | d in SortByName(ds) ensures d == DeckOf(names, (d.deckId, d.cardCount)) {
      assert d in multiset(SortByName(ds));
    }
  }

  ghost predicate DistinctIds(rows: seq<(int, string)>) {
    forall i, j :: 0 <= i < j < |rows| ==> rows[i].0 != rows[j].0
  }

  /** With each id once, the names are the pairs, whatever their order. */
  lemma {:induction false} NamesOfIs(rows: seq<(int, string)>, id: int, name: string)
    requires DistinctIds(rows)
    ensures (id, name) in rows <==> id in NamesOf(rows) && NamesOf(rows)[id] == name
  {
    if rows != [] {
      var front, last := rows[..|rows| - 1], rows[|rows| - 1];
      NamesOfIs(front, id, name);
      assert rows == front + [last];
      assert last.0 == id ==> (id, name) !in front;
    }
  }

  lemma SameNames(rows: seq<(int, string)>, others: seq<(int, string)>)
    requires DistinctIds(rows) && DistinctIds(others) && forall p :: p in rows <==> p in others
    ensures NamesOf(rows) == NamesOf(others)
  {
    var m, n := NamesOf(rows), NamesOf(others);
    forall id | id in m ensures id in n && n[id] == m[id] {
      NamesOfIs(rows, id, m[id]);
      NamesOfIs(others, id, m[id]);
    }
    forall id | id in n ensures id in m {
      NamesOfIs(others, id, n[id]);
      NamesOfIs(rows, id, n[id]);
    }
  }

  /** A collection of the old schema, whose JSON lists its decks in any order and may have members that are
      no decks, has the statistics, deck for deck, that the same decks have as rows of the new schema. */
  lemma SameStatsInEitherSchema(c: Collection, members: seq<(string, Option<string>)>, rows: seq<(int, string)>,
                                groups: seq<(int, nat)>)
    requires c.decks.None? || Converted(c.decks.value).None?
    requires c.colDecks == Some(Object(members)) && DistinctIds(NamedDecks(members)) && DistinctIds(rows)
    requires forall p :: p in NamedDecks(members) <==> p in rows
    ensures StatsOf(c, groups) ==
            StatsOf(c.(decks := Some(seq(|rows|, i requires 0 <= i < |rows| => Some(rows[i])))), groups)
  {
    SameNames(NamedDecks(members), rows);
    AllConvert(rows);
  }

  /** In particular when the JSON holds the same rows, its keys in another order. */
  lemma SameStatsFromReorderedJson(c: Collection, listed: seq<(int, string)>, rows: seq<(int, string)>,
                                   groups: seq<(int, nat)>)
    requires c.decks.None? && c.colDecks == Some(Object(LegacyOf(listed)))
    requires forall i :: 0 <= i < |listed| ==> MIN_I64 <= listed[i].0 <= MAX_I64
    requires multiset(listed) == multiset(rows) && DistinctIds(listed) && DistinctIds(rows)
    ensures StatsOf(c, groups) ==
            StatsOf(c.(decks := Some(seq(|rows|, i requires 0 <= i < |rows| => Some(rows[i])))), groups)
  {
    SchemasAgree(listed);
    forall p ensures p in listed <==> p in rows { assert p in multiset(listed) <==> p in multiset(rows); }
    SameStatsInEitherSchema(c, LegacyOf(listed), rows, groups);
  }

  lemma {:induction false} AllConvert(rows: seq<(int, string)>)
    ensures Converted(seq(|rows|, i requires 0 <= i < |rows| => Some(rows[i]))) == Some(rows)
  {
    if rows != [] {
      var front := rows[..|rows| - 1];
      AllConvert(front);
      var all := seq(|rows|, i requires 0 <= i < |rows| => Some(rows[i]));
      assert all[..|all| - 1] == seq(|front|, i requires 0 <= i < |front| => Some(front[i]));
      assert rows == front + [rows[|rows| - 1]];
    }
  }
}
