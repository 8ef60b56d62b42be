/**
 The stored file's format: Save writes one `key=value` line per entry with a
 non-empty value, in map iteration order; Load scans the file line by line,
 splits each line at `=` and writes the first two pieces into the map.
 */
module EnvFile {
  import opened Options
  import opened Strings
  import opened Bufio
  import opened EnvMap

  /** An entry's text in the file, without its line terminator. */
  function EntryText(key: string, value: string): string
  {
    key + "=" + value
  }

  /** The line Save gathers for an entry: `fmt.Sprintf("%s=%s\n", key, value)`. */
  function Line(key: string, value: string): (l: string)
    ensures |l| == |key| + |value| + 2
    ensures l[|key|] == '=' && l[|l| - 1] == '\n'
  {
    EntryText(key, value) + "\n"
  }

  /** The entries Save writes: those whose value is not the empty string. */
  function NonEmpty(m: map<string, string>): (r: map<string, string>)
    ensures forall k :: k in r <==> k in m && m[k] != ""
    ensures forall k :: k in r ==> r[k] == m[k]
  {
    map k | k in m && m[k] != "" :: m[k]
  }

  ghost predicate Distinct(s: seq<string>)
  {
    forall i, j :: 0 <= i < j < |s| ==> s[i] != s[j]
  }

  /** `order` lists every key of `keys` exactly once (one possible map iteration order). */
  ghost predicate Enumerates(order: seq<string>, keys: set<string>)
  {
    Distinct(order) && forall k :: k in order <==> k in keys
  }

  /** The lines gathered for the keys in `order`. */
  function Render(order: seq<string>, m: map<string, string>): (lines: seq<string>)
    requires forall i :: 0 <= i < |order| ==> order[i] in m
    ensures |lines| == |order|
    ensures forall i :: 0 <= i < |order| ==> lines[i] == Line(order[i], m[order[i]])
  {
    seq(|order|, i requires 0 <= i < |order| => Line(order[i], m[order[i]]))
  }

  /** The texts of the entries for the keys in `order`, without terminators. */
  function Texts(order: seq<string>, m: map<string, string>): seq<string>
    requires forall i :: 0 <= i < |order| ==> order[i] in m
  {
    seq(|order|, i requires 0 <= i < |order| => EntryText(order[i], m[order[i]]))
  }

  /** The file content after writing `lines` one after the other. */
  function Concat(lines: seq<string>): (content: string)
    ensures content == "" <==> forall i :: 0 <= i < |lines| ==> lines[i] == ""
    decreases |lines|
  {
    if lines == [] then ""
    else
      var rest := Concat(lines[1..]);
      assert forall i :: 1 <= i < |lines| ==> lines[i] == lines[1..][i - 1];
      lines[0] + rest
  }

  lemma {:induction false} ConcatSnoc(lines: seq<string>, line: string)
    ensures Concat(lines + [line]) == Concat(lines) + line
  {
    if lines == [] {
      assert [] + [line] == [line];
    } else {
      assert (lines + [line])[1..] == lines[1..] + [line];
      ConcatSnoc(lines[1..], line);
    }
  }

  /**
   What the file holds after the writes of `lines[..j]` and the first `n`
   characters of `lines[j]` is a prefix of what writing all lines gives.
   */
  lemma {:induction false} ConcatPrefix(lines: seq<string>, j: nat, n: nat)
    requires j < |lines| && n <= |lines[j]|
    ensures Concat(lines[..j]) + lines[j][..n] <= Concat(lines)
    decreases j
  {
    if j == 0 {
      assert lines[..0] == [];
    } else {
      assert lines[..j][1..] == lines[1..][..j - 1];
      ConcatPrefix(lines[1..], j - 1, n);
    }
  }

  lemma {:induction false} RenderIsTerminatedTexts(order: seq<string>, m: map<string, string>)
    requires forall i :: 0 <= i < |order| ==> order[i] in m
    ensures Concat(Render(order, m)) == Terminated(Texts(order, m))
  {
    if order != [] {
      assert Render(order, m)[1..] == Render(order[1..], m);
      assert Texts(order, m)[1..] == Texts(order[1..], m);
      RenderIsTerminatedTexts(order[1..], m);
    }
  }

  datatype Pair = Pair(key: string, value: string)

  /**
   One scanned line as Load reads it: `strings.Split(line, "=")`, piece 0 the
   key and piece 1 the value. The key is the text before the first `=`, the
   value the text from there up to the second `=` or the end; the rest of the
   line is ignored. A line without `=` has no piece 1: Go's index panics,
   modelled as None.
   */
  function ParseLine(text: string): (r: Option<Pair>)
    ensures r.None? <==> '=' !in text
    ensures r.Some? ==>
      && '=' !in r.value.key && '=' !in r.value.value
      && EntryText(r.value.key, r.value.value) <= text
      && (|text| == |EntryText(r.value.key, r.value.value)|
          || text[|EntryText(r.value.key, r.value.value)|] == '=')
  {
    var parts := Split(text, '=');
    if |parts| < 2 then None
    else
      assert text == parts[0] + "=" + JoinWith(parts[1..], '=');
      assert parts[1..][1..] == parts[2..];
      assert JoinWith(parts[1..], '=') == parts[1] + (if |parts| > 2 then "=" + JoinWith(parts[2..], '=') else "");
      Some(Pair(parts[0], parts[1]))
  }

  /** An entry whose key and value hold no `=` reads back as that entry. */
  lemma ParseEntryText(key: string, value: string)
    requires '=' !in key && '=' !in value
    ensures ParseLine(EntryText(key, value)) == Some(Pair(key, value))
  {
    SplitPair(key, value, '=');
  }

  /** Whatever follows a second `=` is dropped: `key=first=rest` reads back as key `key`, value `first`. */
  lemma ParseCutsAtSecondEquals(key: string, first: string, rest: string)
    requires '=' !in key && '=' !in first
    ensures ParseLine(key + "=" + first + "=" + rest) == Some(Pair(key, first))
  {
    assert key + "=" + first + "=" + rest == key + ['='] + (first + ['='] + rest);
    SplitAtFirstSep(key, first + ['='] + rest, '=');
    SplitAtFirstSep(first, rest, '=');
  }

  /** Why Load stops early: Go's run-time panics in the line loop. */
  datatype Panic = IndexOutOfRange | NilMapWrite

  /** The map after merging some lines, and whether a panic stopped the loop. */
  datatype MergeResult = Merged(vars: GoMap) | Panicked(vars: GoMap, reason: Panic)

  /** One iteration of Load's line loop: `EnvVariables[line[0]] = line[1]`. */
  function MergeLine(m: GoMap, text: string): (r: MergeResult)
    ensures r.Merged? <==> '=' in text && m.Made?
    ensures r.Panicked? ==> r.vars == m
  {
    var p := ParseLine(text);
    if p.None? then Panicked(m, IndexOutOfRange)
    else if m.Nil? then Panicked(m, NilMapWrite)
    else Merged(m.Put(p.value.key, p.value.value))
  }

  /** Load's line loop over `texts`, in file order, stopping at the first panic. */
  function MergeLines(m: GoMap, texts: seq<string>): (r: MergeResult)
    ensures m.Nil? && texts != [] ==> r.Panicked?
    decreases |texts|
  {
    if texts == [] then Merged(m)
    else
      match MergeLines(m, texts[..|texts| - 1])
      case Panicked(m', why) => Panicked(m', why)
      case Merged(m') => MergeLine(m', texts[|texts| - 1])
  }

  /** The loop over one more line: the last line is merged unless the loop panicked before it. */
  lemma MergeLinesSnoc(m: GoMap, texts: seq<string>)
    requires texts != []
    ensures var r := MergeLines(m, texts[..|texts| - 1]);
      MergeLines(m, texts) == if r.Merged? then MergeLine(r.vars, texts[|texts| - 1]) else r
  {
  }

  /** The loop finishes without a panic exactly when every line has an `=` and, unless there are no lines, the map is made. */
  lemma {:induction false} MergeLinesSucceeds(m: GoMap, texts: seq<string>)
    ensures MergeLines(m, texts).Merged? <==>
      (forall i :: 0 <= i < |texts| ==> '=' in texts[i]) && (m.Made? || texts == [])
    ensures MergeLines(m, texts).vars.Made? <==> m.Made?
    decreases |texts|
  {
    if texts != [] {
      var init := texts[..|texts| - 1];
      var last := texts[|texts| - 1];
      assert texts == init + [last];
      MergeLinesSucceeds(m, init);
      var r := MergeLines(m, init);
      if r.Merged? {
        assert MergeLines(m, texts) == MergeLine(r.vars, last);
      } else {
        assert MergeLines(m, texts) == r;
      }
    }
  }

  /** Once a prefix of the lines panics, the loop ends there. */
  lemma {:induction false} MergeStopsAtPanic(m: GoMap, texts: seq<string>, j: nat)
    requires j <= |texts|
    requires MergeLines(m, texts[..j]).Panicked?
    ensures MergeLines(m, texts) == MergeLines(m, texts[..j])
    decreases |texts|
  {
    if j < |texts| {
      var init := texts[..|texts| - 1];
      assert init[..j] == texts[..j];
      MergeStopsAtPanic(m, init, j);
    } else {
      assert texts[..j] == texts;
    }
  }

  /** Line `text` writes key `k`. */
  predicate Writes(text: string, k: string)
  {
    ParseLine(text).Some? && ParseLine(text).value.key == k
  }

  /** A key that no line writes keeps its value, whether or not the loop panics. */
  lemma {:induction false} MergeKeepsUntouched(m: GoMap, texts: seq<string>, k: string)
    requires forall i :: 0 <= i < |texts| ==> !Writes(texts[i], k)
    ensures MergeLines(m, texts).vars.Get(k) == m.Get(k)
    decreases |texts|
  {
    if texts != [] {
      MergeKeepsUntouched(m, texts[..|texts| - 1], k);
      assert !Writes(texts[|texts| - 1], k);
    }
  }

  /** With the loop finished, a key holds the value from the last line that writes it. */
  lemma {:induction false} MergeLastWins(m: GoMap, texts: seq<string>, k: string, i: nat)
    requires i < |texts| && Writes(texts[i], k)
    requires forall j :: i < j < |texts| ==> !Writes(texts[j], k)
    requires MergeLines(m, texts).Merged?
    ensures MergeLines(m, texts).vars.Get(k) == ParseLine(texts[i]).value.value
    decreases |texts|
  {
    var init := texts[..|texts| - 1];
    var last := texts[|texts| - 1];
    assert MergeLines(m, init).Merged?;
    if i < |texts| - 1 {
      MergeLastWins(m, init, k, i);
      assert !Writes(last, k);
    }
  }

  /** Entries whose keys and values contain none of `=`, `\n` and `\r`. */
  predicate PlainEntries(m: map<string, string>)
  {
    forall k :: k in m ==> '=' !in k && '\n' !in k && '\r' !in k && '=' !in m[k] && '\n' !in m[k] && '\r' !in m[k]
  }

  /** The entries named by `order`, as a map. */
  function Restrict(m: map<string, string>, order: seq<string>): map<string, string>
  {
    map k | k in order && k in m :: m[k]
  }

  /** Merging the text of one plain entry writes exactly that entry. */
  lemma MergeEntryText(before: map<string, string>, key: string, value: string)
    requires '=' !in key && '=' !in value
    ensures MergeLine(Made(before), EntryText(key, value)) == Merged(Made(before[key := value]))
  {
    ParseEntryText(key, value);
  }

  /** The texts of `order` are those of all but its last key, then the last key's text. */
  lemma TextsSnoc(order: seq<string>, m: map<string, string>)
    requires order != []
    requires forall i :: 0 <= i < |order| ==> order[i] in m
    ensures Texts(order, m)[..|order| - 1] == Texts(order[..|order| - 1], m)
    ensures Texts(order, m)[|order| - 1] == EntryText(order[|order| - 1], m[order[|order| - 1]])
  {
  }

  /** One more entry text after a successful merge writes that entry. */
  lemma MergeTextsStep(m0: map<string, string>, before: map<string, string>, texts: seq<string>, key: string, value: string)
    requires texts != [] && MergeLines(Made(m0), texts[..|texts| - 1]) == Merged(Made(before))
    requires texts[|texts| - 1] == EntryText(key, value) && '=' !in key && '=' !in value
    ensures MergeLines(Made(m0), texts) == Merged(Made(before[key := value]))
  {
    MergeLinesSnoc(Made(m0), texts);
    MergeEntryText(before, key, value);
  }

  lemma {:induction false} MergeTexts(m0: map<string, string>, order: seq<string>, m: map<string, string>)
    requires forall i :: 0 <= i < |order| ==> order[i] in m
    requires PlainEntries(m)
    ensures MergeLines(Made(m0), Texts(order, m)) == Merged(Made(m0 + Restrict(m, order)))
    decreases |order|
  {
    if order == [] {
      assert Restrict(m, order) == map[];
      assert m0 + Restrict(m, order) == m0;
    } else {
      var n := |order| - 1;
      var init, k := order[..n], order[n];
      var texts := Texts(order, m);
      TextsSnoc(order, m);
      MergeTexts(m0, init, m);
      var before := m0 + Restrict(m, init);
      assert '=' !in k && '=' !in m[k];
      MergeTextsStep(m0, before, texts, k, m[k]);
      RestrictSnoc(m0, m, order);
    }
  }

  /** Merging the entries of `order` one key at a time: the last key's entry is one more map update. */
  lemma RestrictSnoc(m0: map<string, string>, m: map<string, string>, order: seq<string>)
    requires order != [] && order[|order| - 1] in m
    ensures var k := order[|order| - 1];
      (m0 + Restrict(m, order[..|order| - 1]))[k := m[k]] == m0 + Restrict(m, order)
  {
    assert order == order[..|order| - 1] + [order[|order| - 1]];
  }

  /** The text of a non-empty plain entry comes back unchanged from the scanner. */
  lemma EntryTextIsPlainLine(key: string, value: string)
    requires value != ""
    requires '\n' !in key && '\n' !in value && '\r' !in value
    ensures PlainLine(EntryText(key, value))
  {
    var t := EntryText(key, value);
    assert t[|t| - 1] == value[|value| - 1];
    assert forall i :: 0 <= i < |t| ==> t[i] == '=' || t[i] in key || t[i] in value by {
      forall i | 0 <= i < |t| ensures t[i] == '=' || t[i] in key || t[i] in value {
        if i < |key| { assert t[i] == key[i]; }
        else if i > |key| { assert t[i] == value[i - |key| - 1]; }
      }
    }
  }

  lemma TextsArePlain(order: seq<string>, m: map<string, string>)
    requires PlainEntries(m)
    requires forall i :: 0 <= i < |order| ==> order[i] in NonEmpty(m)
    ensures forall i :: 0 <= i < |order| ==> order[i] in m
    ensures forall i :: 0 <= i < |order| ==> PlainLine(Texts(order, m)[i])
  {
    forall i | 0 <= i < |order|
      ensures PlainLine(Texts(order, m)[i])
    {
      EntryTextIsPlainLine(order[i], m[order[i]]);
    }
  }

  lemma RestrictEnumerated(m: map<string, string>, order: seq<string>)
    requires Enumerates(order, NonEmpty(m).Keys)
    ensures Restrict(m, order) == NonEmpty(m)
  {
  }

  /**
   The round trip: scanning and merging the lines that Save gathered, in any
   iteration order, into a map `m0` gives `m0` overwritten by exactly the
   non-empty entries, provided no key or value holds `=`, `\n` or `\r`.
   */
  lemma SaveLoadRoundTrip(m0: map<string, string>, m: map<string, string>, order: seq<string>)
    requires PlainEntries(m)
    requires Enumerates(order, NonEmpty(m).Keys)
    ensures forall i :: 0 <= i < |order| ==> order[i] in m
    ensures MergeLines(Made(m0), ScanLines(Concat(Render(order, m)))) == Merged(Made(m0 + NonEmpty(m)))
  {
    assert forall i :: 0 <= i < |order| ==> order[i] in NonEmpty(m);
    TextsArePlain(order, m);
    RenderIsTerminatedTexts(order, m);
    ScanTerminated(Texts(order, m));
    MergeTexts(m0, order, m);
    RestrictEnumerated(m, order);
  }

  /** Loaded into an empty map, Save's lines give back exactly the non-empty entries. */
  lemma SaveLoadRoundTripFresh(m: map<string, string>, order: seq<string>)
    requires PlainEntries(m)
    requires Enumerates(order, NonEmpty(m).Keys)
    ensures forall i :: 0 <= i < |order| ==> order[i] in m
    ensures MergeLines(InitEnvMap(), ScanLines(Concat(Render(order, m)))) == Merged(Made(NonEmpty(m)))
  {
    SaveLoadRoundTrip(map[], m, order);
    assert map[] + NonEmpty(m) == NonEmpty(m);
  }

  /**
   Where the round trip breaks: an entry whose value is `first=rest` is saved
   as the line `key=first=rest` and comes back with the value `first`.
   */
  lemma EqualsInValueIsCut(key: string, first: string, rest: string)
    requires '=' !in key && '=' !in first
    requires PlainLine(key + "=" + first + "=" + rest)
    ensures MergeLines(InitEnvMap(), ScanLines(Concat(Render([key], map[key := first + "=" + rest]))))
         == Merged(Made(map[key := first]))
  {
    var value := first + "=" + rest;
    var text := EntryText(key, value);
    assert text == key + "=" + first + "=" + rest;
    var lines := Render([key], map[key := value]);
    assert lines == [text + "\n"];
    assert Concat(lines) == Terminated([text]) by {
      assert lines[1..] == [];
      assert [text][1..] == [];
    }
    ScanTerminated([text]);
    ParseCutsAtSecondEquals(key, first, rest);
    assert [text][..0] == [];
  }

  /** The content Save writes for a single entry. */
  lemma SingleEntryContent(key: string, value: string)
    ensures Concat(Render([key], map[key := value])) == key + "=" + value + "\n"
  {
    var lines := Render([key], map[key := value]);
    assert lines == [Line(key, value)];
    assert lines[1..] == [];
  }

  /**
   Where the round trip breaks, second case: a value `first` + newline + `rest`
   is saved across two lines. The first comes back as the entry with the value
   `first`; the second, which has no `=`, makes Load panic.
   */
  lemma NewlineInValueSplitsEntry(key: string, first: string, rest: string)
    requires '=' !in key && '=' !in first && '=' !in rest
    requires PlainLine(key + "=" + first) && PlainLine(rest)
    ensures MergeLines(InitEnvMap(), ScanLines(Concat(Render([key], map[key := first + "\n" + rest]))))
         == Panicked(Made(map[key := first]), IndexOutOfRange)
  {
    var text := key + "=" + first;
    SingleEntryContent(key, first + "\n" + rest);
    assert key + "=" + (first + "\n" + rest) + "\n" == text + "\n" + (rest + "\n");
    ScanTwoLines(text, rest);
    MergeEntryThenBare(key, first, rest);
  }

  /** Two plain lines, each with its newline, scan back as those two lines. */
  lemma ScanTwoLines(a: string, b: string)
    requires PlainLine(a) && PlainLine(b)
    ensures ScanLines(a + "\n" + (b + "\n")) == [a, b]
  {
    ScanFirstLine(a, b + "\n");
    assert b + "\n" == b + "\n" + "";
    ScanFirstLine(b, "");
  }

  /** A plain entry's text followed by a line without `=`: the entry is merged, then Load panics. */
  lemma MergeEntryThenBare(key: string, value: string, bare: string)
    requires '=' !in key && '=' !in value && '=' !in bare
    ensures MergeLines(InitEnvMap(), [key + "=" + value, bare]) == Panicked(Made(map[key := value]), IndexOutOfRange)
  {
    var lines := [key + "=" + value, bare];
    MergeLinesSnoc(InitEnvMap(), lines);
    assert lines[..1] == [key + "=" + value];
    MergeLinesSnoc(InitEnvMap(), lines[..1]);
    assert lines[..1][..0] == [];
    MergeEntryText(map[], key, value);
    assert map[][key := value] == map[key := value];
    assert ParseLine(bare).None?;
  }

  /**
   Where the round trip breaks, third case: a value ending in `\r` is saved as
   a line ending in `\r\n`, and the scanner drops that `\r`.
   */
  lemma CarriageReturnInValueIsDropped(key: string, value: string)
    requires '=' !in key && '=' !in value
    requires PlainLine(key + "=" + value)
    ensures MergeLines(InitEnvMap(), ScanLines(Concat(Render([key], map[key := value + "\r"]))))
         == Merged(Made(map[key := value]))
  {
    var text := key + "=" + value;
    SingleEntryContent(key, value + "\r");
    assert key + "=" + (value + "\r") + "\n" == (text + "\r") + "\n" + "";
    ScanFirstLine(text + "\r", "");
    assert DropCR(text + "\r") == text;
    ParseEntryText(key, value);
    assert [text][..0] == [];
  }

  lemma RenderAppend(a: seq<string>, b: seq<string>, m: map<string, string>)
    requires forall i :: 0 <= i < |a| ==> a[i] in m
    requires forall i :: 0 <= i < |b| ==> b[i] in m
    ensures forall i :: 0 <= i < |a + b| ==> (a + b)[i] in m
    ensures Render(a + b, m) == Render(a, m) + Render(b, m)
  {
  }

  lemma RemoveAt(s: seq<string>, j: nat)
    requires j < |s|
    ensures multiset(s[..j] + s[j + 1..]) == multiset(s) - multiset{s[j]}
  {
    assert s == s[..j] + [s[j]] + s[j + 1..];
  }

  /** Where the first key of `o1` sits in `o2`, and what is left of both without it. */
  lemma LocateFirst(o1: seq<string>, o2: seq<string>) returns (j: nat)
    requires o1 != [] && multiset(o1) == multiset(o2)
    ensures j < |o2| && o2[j] == o1[0]
    ensures multiset(o1[1..]) == multiset(o2[..j] + o2[j + 1..])
  {
    var x := o1[0];
    assert x in multiset(o1);
    assert x in o2;
    j :| 0 <= j < |o2| && o2[j] == x;
    RemoveAt(o2, j);
    assert o1 == [x] + o1[1..];
    assert multiset(o1[1..]) == multiset(o1) - multiset{x};
  }

  /** The lines of `o1` start with the line of its first key; in `o2` that line sits between the lines of the keys around index `j`. */
  lemma RenderAround(o1: seq<string>, o2: seq<string>, j: nat, m: map<string, string>) returns (l: string)
    requires o1 != [] && j < |o2| && o2[j] == o1[0]
    requires forall i :: 0 <= i < |o1| ==> o1[i] in m
    requires forall i :: 0 <= i < |o2| ==> o2[i] in m
    ensures l == Line(o1[0], m[o1[0]])
    ensures Render(o1, m) == [l] + Render(o1[1..], m)
    ensures Render(o2, m) == Render(o2[..j], m) + [l] + Render(o2[j + 1..], m)
  {
    var x := o1[0];
    l := Line(x, m[x]);
    assert o2 == o2[..j] + [x] + o2[j + 1..];
    RenderAppend(o2[..j] + [x], o2[j + 1..], m);
    RenderAppend(o2[..j], [x], m);
  }

  /** Moving one element from the front into the middle keeps the multiset. */
  lemma MultisetMove(l: string, r1: seq<string>, rf: seq<string>, rb: seq<string>)
    requires multiset(r1) == multiset(rf + rb)
    ensures multiset([l] + r1) == multiset(rf + [l] + rb)
  {
    assert multiset(rf + rb) == multiset(rf) + multiset(rb);
    assert multiset(rf + [l] + rb) == multiset(rf) + multiset{l} + multiset(rb);
  }

  /** A multiset of keys determines the multiset of lines, whatever the order. */
  lemma {:induction false} RenderPermutation(o1: seq<string>, o2: seq<string>, m: map<string, string>)
    requires forall i :: 0 <= i < |o1| ==> o1[i] in m
    requires multiset(o1) == multiset(o2)
    ensures forall i :: 0 <= i < |o2| ==> o2[i] in m
    ensures multiset(Render(o1, m)) == multiset(Render(o2, m))
    decreases |o1|
  {
    forall i | 0 <= i < |o2| ensures o2[i] in m {
      assert o2[i] in multiset(o1);
    }
    if o1 != [] {
      var x := o1[0];
      var j := LocateFirst(o1, o2);
      var front, back := o2[..j], o2[j + 1..];
      RenderPermutation(o1[1..], front + back, m);
      RenderAppend(front, back, m);
      var l := RenderAround(o1, o2, j, m);
      MultisetMove(l, Render(o1[1..], m), Render(front, m), Render(back, m));
    }
  }

  lemma {:induction false} DistinctMultiset(s: seq<string>)
    requires Distinct(s)
    ensures multiset(s) == multiset(set x | x in s)
    decreases |s|
  {
    if s != [] {
      var init := s[..|s| - 1];
      var x := s[|s| - 1];
      assert s == init + [x];
      DistinctMultiset(init);
      assert x !in init;
      assert (set y | y in s) == (set y | y in init) + {x};
    }
  }

  /**
   Save's lines do not depend on map iteration order: any two enumerations
   of the non-empty keys give the same multiset of lines, one line per
   non-empty entry.
   */
  lemma SaveLinesOrderFree(m: map<string, string>, o1: seq<string>, o2: seq<string>)
    requires Enumerates(o1, NonEmpty(m).Keys) && Enumerates(o2, NonEmpty(m).Keys)
    ensures forall i :: 0 <= i < |o1| ==> o1[i] in m
    ensures forall i :: 0 <= i < |o2| ==> o2[i] in m
    ensures multiset(Render(o1, m)) == multiset(Render(o2, m))
    ensures |Render(o1, m)| == |NonEmpty(m)|
  {
    assert forall i :: 0 <= i < |o1| ==> o1[i] in NonEmpty(m);
    DistinctMultiset(o1);
    DistinctMultiset(o2);
    assert (set x | x in o1) == NonEmpty(m).Keys == (set x | x in o2);
    RenderPermutation(o1, o2, m);
    assert |multiset(o1)| == |o1|;
    assert |multiset(NonEmpty(m).Keys)| == |NonEmpty(m).Keys|;
  }

}
