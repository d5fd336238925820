/** The series filter of the Filter page: the catalogue of data sources
    indexed by title, the name matcher, the tag matcher, their AND-ing into a
    sorted result list with its count message, and the catalogue of all tags
    offered in the filter panel. The catalogue is passed in; reading
    `data_sources.json` is not part of this model. */
module Filter {
  import opened Strings
  import opened Sorting
  import opened Wrappers
  import Pages

  /** One entry of the data-sources catalogue. */
  datatype Series = Series(title: string, tags: seq<string>)

  /** The `tags` input: the checklist's list of values, or a string that the
      tag matcher first splits on ",". */
  datatype TagsArg = TagText(text: string) | TagList(items: seq<string>)

  function Titles(list: seq<Series>): (ts: seq<string>)
    ensures |ts| == |list|
    ensures forall i :: 0 <= i < |list| ==> ts[i] == list[i].title
  {
    seq(|list|, i requires 0 <= i < |list| => list[i].title)
  }

  function TagSet(s: Series): set<string> {
    set t | t in s.tags
  }

  // ---------------------------------------------------------------------
  // series_dicts: the catalogue keyed by title
  // ---------------------------------------------------------------------

  /** The elements of `s` in order of first occurrence: the key order of a
      Python dict filled from `s`. */
  function FirstOccurrences(s: seq<string>): (r: seq<string>)
    ensures Distinct(r)
    ensures forall x :: x in r <==> x in s
    decreases |s|
  {
    if |s| == 0 then []
    else
      var p := FirstOccurrences(s[..|s| - 1]);
      if s[|s| - 1] in s[..|s| - 1] then p else p + [s[|s| - 1]]
  }

  /** The position where `x` first occurs in `s`. */
  function FirstIndex(s: seq<string>, x: string): (k: nat)
    requires x in s
    ensures k < |s| && s[k] == x && x !in s[..k]
    decreases |s|
  {
    if s[0] == x then 0
    else
      var k := 1 + FirstIndex(s[1..], x);
      assert s[..k] == [s[0]] + s[1..][..k - 1];
      k
  }

  /** Within a prefix that already holds `x`, its first position is the same. */
  lemma FirstIndexInPrefix(s: seq<string>, n: nat, x: string)
    requires n <= |s| && x in s[..n]
    ensures FirstIndex(s, x) == FirstIndex(s[..n], x)
  {
    var k, k' := FirstIndex(s[..n], x), FirstIndex(s, x);
    assert s[..n][..k] == s[..k];
  }

  /** The keys come in the order their titles first occur: a key listed
      before another first occurs earlier. */
  lemma {:induction false} FirstOccurrencesInOrder(s: seq<string>)
    ensures forall i, j :: 0 <= i < j < |FirstOccurrences(s)| ==>
              FirstIndex(s, FirstOccurrences(s)[i]) < FirstIndex(s, FirstOccurrences(s)[j])
    decreases |s|
  {
    if |s| > 0 {
      var n := |s| - 1;
      var prefix := s[..n];
      var p, r := FirstOccurrences(prefix), FirstOccurrences(s);
      FirstOccurrencesInOrder(prefix);
      assert r == if s[n] in prefix then p else p + [s[n]];
      forall i, j | 0 <= i < j < |r| ensures FirstIndex(s, r[i]) < FirstIndex(s, r[j]) {
        assert r[i] == p[i] && p[i] in prefix;
        FirstIndexInPrefix(s, n, p[i]);
        if j < |p| {
          assert r[j] == p[j] && p[j] in prefix;
          FirstIndexInPrefix(s, n, p[j]);
        }
      }
    }
  }

  /** Position `i` holds an entry titled `t` and no later entry is. */
  predicate LastAt(list: seq<Series>, t: string, i: nat) {
    && i < |list| && list[i].title == t
    && forall j :: i < j < |list| ==> list[j].title != t
  }

  /** The last catalogue entry with title `t`: the value a Python dict keeps
      when the title is assigned more than once. */
  function LastWith(list: seq<Series>, t: string): (r: Series)
    requires t in Titles(list)
    ensures exists i: nat :: LastAt(list, t, i) && list[i] == r
    ensures r.title == t
    decreases |list|
  {
    var n := |list| - 1;
    if list[n].title == t then
      assert LastAt(list, t, n);
      list[n]
    else
      var prefix := list[..n];
      assert t in Titles(prefix) by {
        var k :| 0 <= k < |list| && Titles(list)[k] == t;
        assert Titles(prefix)[k] == t;
      }
      var r := LastWith(prefix, t);
      assert exists i: nat :: LastAt(list, t, i) && list[i] == r by {
        var i: nat :| LastAt(prefix, t, i) && prefix[i] == r;
        assert forall j :: i < j < n ==> list[j] == prefix[j];
        assert LastAt(list, t, i);
      }
      r
  }

  /** A Python dict from title to catalogue entry: the keys in insertion
      order and the entry stored under each. */
  datatype SeriesDicts = SeriesDicts(keys: seq<string>, entries: map<string, Series>) {

    ghost predicate Valid() {
      && Distinct(keys)
      && (forall k :: k in entries <==> k in keys)
      && (forall k :: k in entries ==> entries[k].title == k)
    }

    /** `series_dicts.values()`, in key order. */
    function Values(): (vs: seq<Series>)
      requires Valid()
      ensures |vs| == |keys|
      ensures forall i :: 0 <= i < |keys| ==> vs[i] == entries[keys[i]]
    {
      seq(|keys|, i requires 0 <= i < |keys| => entries[keys[i]])
    }
  }

  lemma TitlesSnoc(list: seq<Series>, s: Series)
    ensures Titles(list + [s]) == Titles(list) + [s.title]
  {
  }

  /** Appending a title extends the first-occurrence order only when the
      title is new. */
  lemma FirstOccurrencesSnoc(s: seq<string>, x: string)
    ensures FirstOccurrences(s + [x]) == if x in s then FirstOccurrences(s) else FirstOccurrences(s) + [x]
  {
    assert (s + [x])[..|s|] == s;
  }

  /** Appending an entry makes it the last one for its title and leaves the
      last entry of every other title as it was. */
  lemma LastWithSnoc(list: seq<Series>, s: Series, t: string)
    requires t in Titles(list + [s])
    ensures s.title != t ==> t in Titles(list)
    ensures LastWith(list + [s], t) == if s.title == t then s else LastWith(list, t)
  {
    TitlesSnoc(list, s);
    assert (list + [s])[..|list|] == list;
  }

  /** What the filling loop keeps: `keys` and `entries` are the dict built
      from the entries of `done`. */
  ghost predicate IndexesPrefix(done: seq<Series>, keys: seq<string>, entries: map<string, Series>) {
    && keys == FirstOccurrences(Titles(done))
    && (forall k :: k in entries <==> k in keys)
    && (forall k :: k in entries ==> k in Titles(done) && entries[k] == LastWith(done, k))
  }

  /** Storing one more entry under its title extends the dict built so far. */
  lemma IndexStep(done: seq<Series>, s: Series, keys: seq<string>, entries: map<string, Series>)
    requires IndexesPrefix(done, keys, entries)
    ensures IndexesPrefix(done + [s], if s.title in entries then keys else keys + [s.title],
                          entries[s.title := s])
  {
    TitlesSnoc(done, s);
    FirstOccurrencesSnoc(Titles(done), s.title);
    forall k | k in Titles(done + [s])
      ensures LastWith(done + [s], k) == if s.title == k then s else LastWith(done, k)
    {
      LastWithSnoc(done, s, k);
    }
  }

  lemma PrefixSnoc(list: seq<Series>, i: nat)
    requires i < |list|
    ensures list[..i + 1] == list[..i] + [list[i]]
  {
  }

  /** A dict built from the whole catalogue is well formed. */
  lemma IndexComplete(seriesList: seq<Series>, keys: seq<string>, entries: map<string, Series>)
    requires IndexesPrefix(seriesList, keys, entries)
    ensures SeriesDicts(keys, entries).Valid()
  {
    forall k | k in entries ensures entries[k].title == k {
      assert LastWith(seriesList, k).title == k;
    }
  }

  /** The loop that fills `series_dicts`, each entry stored under its title:
      the keys come in first-occurrence order and each holds the last entry
      with that title. */
  method IndexByTitle(seriesList: seq<Series>) returns (d: SeriesDicts)
    ensures d.Valid()
    ensures d.keys == FirstOccurrences(Titles(seriesList))
    ensures forall k :: k in d.entries ==> d.entries[k] == LastWith(seriesList, k)
  {
    var keys: seq<string> := [];
    var entries: map<string, Series> := map[];
    for i := 0 to |seriesList|
      invariant IndexesPrefix(seriesList[..i], keys, entries)
    {
      var s := seriesList[i];
      PrefixSnoc(seriesList, i);
      IndexStep(seriesList[..i], s, keys, entries);
      if s.title !in entries {
        keys := keys + [s.title];
      }
      entries := entries[s.title := s];
    }
    assert seriesList[..|seriesList|] == seriesList;
    IndexComplete(seriesList, keys, entries);
    d := SeriesDicts(keys, entries);
  }

  // ---------------------------------------------------------------------
  // the two matchers
  // ---------------------------------------------------------------------

  /** The regular expression `term1|term2|...` finds a match in `title`,
      ignoring case, with every term read as literal text. */
  predicate AnyTermOccurs(title: string, terms: seq<string>) {
    exists term :: term in terms && ContainsIgnoringCase(title, term)
  }

  /** The name search: the input is split on single spaces into terms. */
  predicate NameMatches(title: string, nameInput: string) {
    AnyTermOccurs(title, Split(nameInput, ' '))
  }

  /** The tags a request asks for: a string is split on ",", then the
      pieces or the list's items form a set. */
  function RequestedTags(tags: TagsArg): set<string> {
    match tags
    case TagText(s) => set t | t in Split(s, ',')
    case TagList(items) => set t | t in items
  }

  /** What one matcher tests of a catalogue entry. */
  datatype Criterion = NameTerms(nameInput: string) | TagSubset(requested: set<string>)

  predicate Accepts(c: Criterion, s: Series) {
    match c
    case NameTerms(nameInput) => NameMatches(s.title, nameInput)
    case TagSubset(requested) => requested <= TagSet(s)
  }

  /** The titles of the entries that pass `c`, in the order of `values`. */
  function TitlesWhere(values: seq<Series>, c: Criterion): seq<string>
    decreases |values|
  {
    if |values| == 0 then []
    else
      var n := |values| - 1;
      var p := TitlesWhere(values[..n], c);
      if Accepts(c, values[n]) then p + [values[n].title] else p
  }

  /** A title is listed exactly when some entry with that title passes. */
  lemma {:induction false} TitlesWhereMembers(values: seq<Series>, c: Criterion)
    ensures forall t :: t in TitlesWhere(values, c) <==>
              exists i :: 0 <= i < |values| && values[i].title == t && Accepts(c, values[i])
    decreases |values|
  {
    if |values| > 0 {
      var n := |values| - 1;
      TitlesWhereMembers(values[..n], c);
      var p := TitlesWhere(values[..n], c);
      assert TitlesWhere(values, c) == if Accepts(c, values[n]) then p + [values[n].title] else p;
      forall t ensures t in TitlesWhere(values, c) <==>
                 exists i :: 0 <= i < |values| && values[i].title == t && Accepts(c, values[i])
      {
        if t in TitlesWhere(values, c) && !(values[n].title == t && Accepts(c, values[n])) {
          assert t in p;
          var i :| 0 <= i < |values[..n]| && values[..n][i].title == t && Accepts(c, values[..n][i]);
          assert values[i] == values[..n][i];
        }
        if exists i :: 0 <= i < |values| && values[i].title == t && Accepts(c, values[i]) {
          var i :| 0 <= i < |values| && values[i].title == t && Accepts(c, values[i]);
          if i < n {
            assert values[..n][i] == values[i];
          }
        }
      }
    }
  }

  /** The positions of the entries that pass `c`, ascending. */
  function AcceptedIndices(values: seq<Series>, c: Criterion): seq<nat>
    decreases |values|
  {
    if |values| == 0 then []
    else
      var n := |values| - 1;
      var p := AcceptedIndices(values[..n], c);
      if Accepts(c, values[n]) then p + [n] else p
  }

  /** `ts` lists, one title per position in `idx`, the titles of exactly the
      entries of `values` that pass `c`, in the order the entries come. */
  ghost predicate OnePerPassingEntry(values: seq<Series>, c: Criterion, idx: seq<nat>, ts: seq<string>) {
    && |idx| == |ts|
    && (forall k :: 0 <= k < |idx| ==> idx[k] < |values| && ts[k] == values[idx[k]].title)
    && (forall k, l :: 0 <= k < l < |idx| ==> idx[k] < idx[l])
    && (forall i :: 0 <= i < |values| ==> (i in idx <==> Accepts(c, values[i])))
  }

  /** The matched titles come one per passing entry, in catalogue iteration
      order. */
  lemma {:induction false} TitlesWhereInOrder(values: seq<Series>, c: Criterion)
    ensures OnePerPassingEntry(values, c, AcceptedIndices(values, c), TitlesWhere(values, c))
    decreases |values|
  {
    if |values| > 0 {
      var n := |values| - 1;
      var prefix := values[..n];
      TitlesWhereInOrder(prefix, c);
      var p, q := AcceptedIndices(prefix, c), TitlesWhere(prefix, c);
      assert forall i :: 0 <= i < n ==> prefix[i] == values[i];
      assert n !in p;
      if Accepts(c, values[n]) {
        var idx, ts := p + [n], q + [values[n].title];
        assert forall k :: 0 <= k < |p| ==> idx[k] == p[k] && ts[k] == q[k];
        assert forall i :: 0 <= i < n ==> (i in idx <==> i in p);
      }
    }
  }

  /** When every entry passes, every title is listed, in catalogue order. */
  lemma {:induction false} AllAcceptedKeepsAllTitles(values: seq<Series>, c: Criterion)
    requires forall i :: 0 <= i < |values| ==> Accepts(c, values[i])
    ensures TitlesWhere(values, c) == Titles(values)
    decreases |values|
  {
    if |values| > 0 {
      var n := |values| - 1;
      AllAcceptedKeepsAllTitles(values[..n], c);
      assert Titles(values[..n]) + [values[n].title] == Titles(values);
    }
  }

  /** An empty tag request is a subset of every tag set: all titles match. */
  lemma EmptyTagRequestMatchesAll(values: seq<Series>)
    ensures TitlesWhere(values, TagSubset({})) == Titles(values)
  {
    AllAcceptedKeepsAllTitles(values, TagSubset({}));
  }

  /** A trailing space leaves an empty term, and the empty term matches
      every title. */
  lemma TrailingSpaceMatchesEverything(nameInput: string, title: string)
    requires |nameInput| > 0 && nameInput[|nameInput| - 1] == ' '
    ensures NameMatches(title, nameInput)
  {
    var p := nameInput[..|nameInput| - 1];
    assert nameInput == p + [' '];
    TrailingSeparatorGivesEmptyPiece(p, ' ');
    EmptyTermOccurs(title);
    var parts := Split(nameInput, ' ');
    assert parts[|parts| - 1] in parts;
  }

  /** Two spaces in a row leave an empty term, which matches every title. */
  lemma DoubledSpaceMatchesEverything(nameInput: string, title: string, i: nat)
    requires i + 1 < |nameInput| && nameInput[i] == ' ' && nameInput[i + 1] == ' '
    ensures NameMatches(title, nameInput)
  {
    var p, t := nameInput[..i], nameInput[i + 2..];
    assert nameInput == p + [' ', ' '] + t;
    DoubledSeparatorGivesEmptyPiece(p, t, ' ');
    EmptyTermOccurs(title);
  }

  /** A one-word search finds a title holding the word, in the term's own
      case and in another case. */
  lemma NameSearchExample()
    ensures NameMatches("Australian GDP Growth", "GDP")
    ensures NameMatches("australian gdp growth", "GDP")
  {
    SplitWithoutSeparator("GDP", ' ');
    assert "GDP" in Split("GDP", ' ');
    ContainsIgnoringCaseAt("Australian GDP Growth", "GDP");
    assert AgreesIgnoringCaseAt("Australian GDP Growth", "GDP", 11);
    ContainsIgnoringCaseAt("australian gdp growth", "GDP");
    assert AgreesIgnoringCaseAt("australian gdp growth", "GDP", 11);
  }

  /** A one-word search passes over a title without the word. */
  lemma NameSearchMissExample()
    ensures !NameMatches("Australian Unemployment", "GDP")
  {
    SplitWithoutSeparator("GDP", ' ');
    assert Split("GDP", ' ') == ["GDP"];
    var miss := "Australian Unemployment";
    ContainsIgnoringCaseAt(miss, "GDP");
    forall i: nat | i < |miss| ensures LowerChar(miss[i]) != 'g' {
    }
  }

  /** A tags string names its tags between commas: "a,b" asks for a and b. */
  lemma TwoTagsText(a: string, b: string)
    requires ',' !in a && ',' !in b
    ensures RequestedTags(TagText(a + "," + b)) == {a, b}
  {
    SplitAtSeparator(a, b, ',');
    SplitWithoutSeparator(b, ',');
    assert Split(a + "," + b, ',') == [a, b];
  }

  /** Tags are ANDed: a series carrying only one of two requested tags is
      left out, one carrying both (and more) is kept. */
  lemma TagSubsetExample()
    ensures Accepts(TagSubset({"Australia", "Economic"}), Series("Australian GDP Growth", ["Australia", "Economic", "GDP"]))
    ensures !Accepts(TagSubset({"Australia", "Economic"}), Series("ASX 200", ["Australia"]))
  {
    assert "Economic" !in TagSet(Series("ASX 200", ["Australia"]));
  }

  /** The matchers read `series_dicts`: a title is listed exactly when it is
      a key whose stored entry passes. */
  lemma DictTitlesWhere(d: SeriesDicts, c: Criterion)
    requires d.Valid()
    ensures forall t :: t in TitlesWhere(d.Values(), c) <==> t in d.entries && Accepts(c, d.entries[t])
  {
    var values := d.Values();
    TitlesWhereMembers(values, c);
    forall t | t in d.entries && Accepts(c, d.entries[t])
      ensures exists i :: 0 <= i < |values| && values[i].title == t && Accepts(c, values[i])
    {
      var i :| 0 <= i < |d.keys| && d.keys[i] == t;
      assert values[i] == d.entries[t];
    }
  }

  /** `Filter.match_names`: the titles, in catalogue order, that contain one
      of the space-separated terms of `nameInput`, ignoring case. */
  method MatchNames(nameInput: string, seriesDicts: SeriesDicts) returns (matched: seq<string>)
    requires seriesDicts.Valid()
    ensures matched == TitlesWhere(seriesDicts.Values(), NameTerms(nameInput))
  {
    matched := [];
    var nameTerms := Split(nameInput, ' ');
    var values := seriesDicts.Values();
    for i := 0 to |values|
      invariant matched == TitlesWhere(values[..i], NameTerms(nameInput))
    {
      assert values[..i + 1][..i] == values[..i];
      if AnyTermOccurs(values[i].title, nameTerms) {
        matched := matched + [values[i].title];
      }
    }
    assert values[..|values|] == values;
  }

  /** `Filter.match_tags`: the titles, in catalogue order, whose tags include
      every requested tag. */
  method MatchTags(tags: TagsArg, seriesDicts: SeriesDicts) returns (matched: seq<string>)
    requires seriesDicts.Valid()
    ensures matched == TitlesWhere(seriesDicts.Values(), TagSubset(RequestedTags(tags)))
  {
    matched := [];
    var requested := RequestedTags(tags);
    var values := seriesDicts.Values();
    for i := 0 to |values|
      invariant matched == TitlesWhere(values[..i], TagSubset(requested))
    {
      assert values[..i + 1][..i] == values[..i];
      if requested <= TagSet(values[i]) {
        matched := matched + [values[i].title];
      }
    }
    assert values[..|values|] == values;
  }

  // ---------------------------------------------------------------------
  // filter_results
  // ---------------------------------------------------------------------

  /** The line above the results: "No results found", "1 result found" or
      "<n> results found". */
  function ResultMessage(n: nat): (msg: string)
    ensures n == 0 ==> msg == "No results found"
    ensures n == 1 ==> msg == "1 result found"
    ensures n > 1 ==> msg == Decimal(n) + " results found"
  {
    if n > 0 then Decimal(n) + " result" + (if n > 1 then "s" else "") + " found"
    else "No results found"
  }

  /** Reads a count back from a result message; `None` for any other text. */
  function CountInMessage(msg: string): Option<nat> {
    var suffix := " results found";
    if msg == "No results found" then Some(0)
    else if msg == "1 result found" then Some(1)
    else if |msg| > |suffix| && msg[|msg| - |suffix|..] == suffix
            && forall i :: 0 <= i < |msg| - |suffix| ==> IsDigit(msg[i])
    then Some(ParseDecimal(msg[..|msg| - |suffix|]))
    else None
  }

  /** The message tells the count: reading it back gives the count. */
  lemma CountInResultMessage(n: nat)
    ensures CountInMessage(ResultMessage(n)) == Some(n)
  {
    if n > 1 {
      var m := ResultMessage(n);
      var digits := Decimal(n);
      assert m[0] == digits[0] && IsDigit(m[0]);
      assert m != "No results found";
      assert |m| > 14;
      assert m[..|m| - 14] == digits;
      assert m[|m| - 14..] == " results found";
      ParseDecimalOfDecimal(n);
    }
  }

  /** Different counts never share a message. */
  lemma ResultMessageDeterminesCount(a: nat, b: nat)
    requires ResultMessage(a) == ResultMessage(b)
    ensures a == b
  {
    CountInResultMessage(a);
    CountInResultMessage(b);
  }

  /** What a matcher run over `series_dicts` finds, stated on the
      catalogue list itself. */
  lemma IndexedTitlesWhere(seriesList: seq<Series>, d: SeriesDicts, c: Criterion)
    requires d.Valid()
    requires d.keys == FirstOccurrences(Titles(seriesList))
    requires forall k :: k in d.entries ==> d.entries[k] == LastWith(seriesList, k)
    ensures forall t :: t in TitlesWhere(d.Values(), c) <==>
              t in Titles(seriesList) && Accepts(c, LastWith(seriesList, t))
  {
    DictTitlesWhere(d, c);
  }

  /** A title the result list shows: it is in the catalogue, passes the
      name search unless the name is "", and its last entry carries every
      requested tag unless the tags input is the string "". */
  predicate Selected(t: string, name: string, tags: TagsArg, seriesList: seq<Series>) {
    && t in Titles(seriesList)
    && (name == "" || NameMatches(t, name))
    && (tags == TagText("") || RequestedTags(tags) <= TagSet(LastWith(seriesList, t)))
  }

  /** The titles of the result list: the catalogue, indexed by title, is
      searched by name and by tags, and the titles passing both are sorted. */
  method SortedMatches(name: string, tags: TagsArg, seriesList: seq<Series>)
    returns (titles: seq<string>)
    ensures StrictlySorted(titles)
    ensures forall t :: t in titles <==> Selected(t, name, tags, seriesList)
  {
    var seriesDicts := IndexByTitle(seriesList);
    var allTitles := set k | k in seriesDicts.keys;
    assert forall t :: t in allTitles <==> t in Titles(seriesList);

    var nameMatches: set<string>;
    if name == "" {
      nameMatches := allTitles;
    } else {
      var matched := MatchNames(name, seriesDicts);
      IndexedTitlesWhere(seriesList, seriesDicts, NameTerms(name));
      nameMatches := set t | t in matched;
    }
    assert forall t :: t in nameMatches <==> t in Titles(seriesList) && (name == "" || NameMatches(t, name));

    var tagMatches: set<string>;
    if tags == TagText("") {
      tagMatches := allTitles;
    } else {
      var matched := MatchTags(tags, seriesDicts);
      IndexedTitlesWhere(seriesList, seriesDicts, TagSubset(RequestedTags(tags)));
      tagMatches := set t | t in matched;
    }
    assert forall t :: t in tagMatches <==>
             t in Titles(seriesList)
             && (tags == TagText("") || RequestedTags(tags) <= TagSet(LastWith(seriesList, t)));

    titles := SortedList(nameMatches * tagMatches);
  }

  /** What the result callback produces: the result titles with the line
      above them, or an exception that leaves the page without results. */
  datatype FilterOutcome = Listed(titles: seq<string>, message: string) | Raised

  /** The `tags` value as the tag matcher can take it: a string, or a list
      of strings. The empty option list is Python's `[]` as well. A non-empty
      list of option dictionaries makes `set(tags)` raise (dictionaries are
      not hashable), and a value of any other type is taken to raise too. */
  function TagsInput(tags: Pages.Arg): Option<TagsArg> {
    match tags
    case Text(s) => Some(TagText(s))
    case TextList(items) => Some(TagList(items))
    case OptionList(labels) => if |labels| == 0 then Some(TagList([])) else None
    case OtherValue(_) => None
  }

  /** An empty list of tags, however it is spelt, is no tag filter: a title
      is selected iff it is in the catalogue and passes the name search. */
  lemma EmptyTagListSelectsByName(name: string, seriesList: seq<Series>, t: string)
    ensures TagsInput(Pages.TextList([])) == TagsInput(Pages.OptionList([])) == Some(TagList([]))
    ensures Selected(t, name, TagList([]), seriesList) <==>
              t in Titles(seriesList) && (name == "" || NameMatches(t, name))
  {
    assert RequestedTags(TagList([])) == {};
  }

  /** `filter_results(name, tags)`. A name that is not a string has no
      `split` and a tags value the matcher cannot take raises; so does a
      listed title whose forecast file is missing (`forecastFiles` holds the
      titles that have one), since each result loads its series data before
      the message is built. Otherwise the sorted titles come with the message
      for their count. */
  method FilterResults(name: Pages.Arg, tags: Pages.Arg, seriesList: seq<Series>,
                       forecastFiles: set<string>)
    returns (outcome: FilterOutcome)
    ensures outcome.Listed? <==>
              && name.Text? && TagsInput(tags).Some?
              && forall t :: Selected(t, name.s, TagsInput(tags).value, seriesList) ==> t in forecastFiles
    ensures outcome.Listed? ==>
              && StrictlySorted(outcome.titles)
              && (forall t :: t in outcome.titles <==> Selected(t, name.s, TagsInput(tags).value, seriesList))
              && outcome.message == ResultMessage(|outcome.titles|)
  {
    if !name.Text? {
      return Raised;
    }
    var tagsArg := TagsInput(tags);
    if tagsArg.None? {
      return Raised;
    }
    var titles := SortedMatches(name.s, tagsArg.value, seriesList);
    for i := 0 to |titles|
      invariant forall k :: 0 <= k < i ==> titles[k] in forecastFiles
    {
      if titles[i] !in forecastFiles {
        return Raised;
      }
    }
    return Listed(titles, ResultMessage(|titles|));
  }

  // ---------------------------------------------------------------------
  // display_value: the tags offered in the filter panel
  // ---------------------------------------------------------------------

  /** Every tag of every catalogue entry, sorted, each once. */
  method AllTags(seriesList: seq<Series>) returns (allTags: seq<string>)
    ensures StrictlySorted(allTags)
    ensures forall t :: t in allTags <==>
              exists i :: 0 <= i < |seriesList| && t in seriesList[i].tags
  {
    var collected: seq<string> := [];
    for i := 0 to |seriesList|
      invariant forall t :: t in collected <==>
                  exists j :: 0 <= j < i && t in seriesList[j].tags
    {
      collected := collected + seriesList[i].tags;
    }
    allTags := SortedList(set t | t in collected);
  }

  /** The filter panel's name box and tag checklist as
      `filter_panel_children` builds them, each filled from the URL parameters by
      `apply_default_value`; `literalEval` stands for `ast.literal_eval`. */
  function FilterPanelInputs(params: map<string, string>, allTags: seq<string>,
                             literalEval: string -> Option<Pages.Arg>)
    : (inputs: (map<string, Pages.Arg>, map<string, Pages.Arg>))
    ensures "value" in inputs.0 && inputs.0["value"] ==
              if "name" in params then literalEval(params["name"]).GetOr(Pages.Text(params["name"]))
              else Pages.Text("")
    ensures "values" in inputs.1 && inputs.1["values"] ==
              if "tags" in params then literalEval(params["tags"]).GetOr(Pages.TextList(Split(params["tags"], ',')))
              else Pages.TextList([])
    ensures "options" in inputs.1 && inputs.1["options"] == Pages.OptionList(allTags)
  {
    var nameBox := map[
      "id" := Pages.Text("name"),
      "placeholder" := Pages.Text("Name of a series..."),
      "type" := Pages.Text("text"),
      "value" := Pages.Text("")];
    var tagChecklist := map[
      "options" := Pages.OptionList(allTags),
      "values" := Pages.TextList([]),
      "id" := Pages.Text("tags")];
    assert nameBox["id"] == Pages.Text("name") && "value" in nameBox;
    assert tagChecklist["id"] == Pages.Text("tags") && "value" !in tagChecklist;
    (Pages.ApplyDefaultValue(params, nameBox, literalEval),
     Pages.ApplyDefaultValue(params, tagChecklist, literalEval))
  }
}
