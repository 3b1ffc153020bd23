/** The GFF3 reader of the ingestion service (`GffLoaderService`): the line loop of
    `loadGff`, `parseGeneLine`, `parseAttributes` and `prepareDescription`.

    A line is cut into tab-separated columns with Java's `split`, so trailing empty
    columns vanish before the column count is checked. Column 9 is read as
    `key=value` items separated by `;`, with no percent-decoding and no multi-value
    handling. The isolate lookup, persistence and logging around the loop are not
    part of this model. */
module GffLoader {
  import opened Wrappers
  import opened JavaLang
  import opened Ascii
  import opened Domain

  const TAB: char := '\t'
  const COLUMNS: nat := 9
  const DEFAULT_BIOTYPE: string := "protein_coding"
  const UNKNOWN_ID_PREFIX: string := "UNKNOWN_"

  // ---------------------------------------------------------------------------
  // Column 9: parseAttributes

  /** What `parseAttributes` stores for one `;`-separated item: its trimmed key and
      value when the item splits on `=` into exactly two strings, nothing otherwise. */
  function ItemEntry(item: string): (entry: Option<(string, string)>)
    ensures '=' !in item ==> entry.None?
  {
    var kv := Split(item, '=');
    if |kv| == 2 then Some((Trim(kv[0]), Trim(kv[1]))) else None
  }

  /** The map built by storing `entries` in order, a later entry overwriting an
      earlier one with the same key. */
  function Store(entries: seq<Option<(string, string)>>): map<string, string>
  {
    if entries == [] then map[]
    else
      var m := Store(entries[..|entries| - 1]);
      match entries[|entries| - 1]
      case Some((k, v)) => m[k := v]
      case None => m
  }

  /** `entry` stores a value under `key`. */
  predicate StoresUnder(entry: Option<(string, string)>, key: string)
  {
    entry.Some? && entry.value.0 == key
  }

  /** A key is present exactly when some entry stores under it, and it then holds the
      value of the last entry that does. */
  lemma {:induction false} StoreLookup(entries: seq<Option<(string, string)>>, key: string)
    ensures key in Store(entries) <==> exists i :: 0 <= i < |entries| && StoresUnder(entries[i], key)
    ensures forall i :: 0 <= i < |entries| && StoresUnder(entries[i], key) &&
                        (forall j :: i < j < |entries| ==> !StoresUnder(entries[j], key))
                        ==> key in Store(entries) && Store(entries)[key] == entries[i].value.1
    decreases |entries|
  {
    if entries != [] {
      var n := |entries| - 1;
      var init := entries[..n];
      StoreLookup(init, key);
      assert forall i :: 0 <= i < n ==> entries[i] == init[i];
      if !StoresUnder(entries[n], key) {
        if exists i :: 0 <= i < |entries| && StoresUnder(entries[i], key) {
          var i :| 0 <= i < |entries| && StoresUnder(entries[i], key);
          assert StoresUnder(init[i], key);
        }
      }
    }
  }

  /** The entries of the items of column 9, in order. */
  function Entries(items: seq<string>): seq<Option<(string, string)>>
  {
    seq(|items|, i requires 0 <= i < |items| => ItemEntry(items[i]))
  }

  /** The attribute map `parseAttributes` returns for the items of column 9. */
  function AttributesOf(items: seq<string>): map<string, string>
  {
    Store(Entries(items))
  }

  /** A key is present exactly when some item of column 9 stores under it, and it
      then holds the value of the last item that does: a later duplicate key
      overwrites an earlier one. */
  lemma AttributeLookup(items: seq<string>, key: string)
    ensures key in AttributesOf(items) <==> exists i :: 0 <= i < |items| && StoresUnder(ItemEntry(items[i]), key)
    ensures forall i :: 0 <= i < |items| && StoresUnder(ItemEntry(items[i]), key) &&
                        (forall j :: i < j < |items| ==> !StoresUnder(ItemEntry(items[j]), key))
                        ==> key in AttributesOf(items) && AttributesOf(items)[key] == ItemEntry(items[i]).value.1
  {
    StoreLookup(Entries(items), key);
    assert forall i :: 0 <= i < |items| ==> Entries(items)[i] == ItemEntry(items[i]);
  }

  /** `parseAttributes`: split column 9 on `;`, keep the items that split on `=` into
      two strings, and store their trimmed key and value. */
  method ParseAttributes(attributeString: string) returns (attributes: map<string, string>)
    ensures attributes == AttributesOf(Split(attributeString, ';'))
  {
    attributes := map[];
    var pairs := Split(attributeString, ';');
    ghost var entries := Entries(pairs);
    for i := 0 to |pairs|
      invariant attributes == Store(entries[..i])
    {
      ghost var done := entries[..i + 1];
      assert done[..i] == entries[..i] && done[i] == ItemEntry(pairs[i]);
      var kv := Split(pairs[i], '=');
      if |kv| == 2 {
        attributes := attributes[Trim(kv[0]) := Trim(kv[1])];
      }
    }
    assert entries[..|pairs|] == entries;
  }

  /** An item without `=` is dropped. */
  lemma ItemWithoutSeparatorIsDropped(item: string)
    requires '=' !in item
    ensures ItemEntry(item) == None
  {
  }

  /** `key=value` with a non-empty value is kept, key and value trimmed. */
  lemma KeyValueItemIsKept(key: string, value: string)
    requires '=' !in key && '=' !in value && value != []
    ensures ItemEntry(key + "=" + value) == Some((Trim(key), Trim(value)))
  {
    var item := key + "=" + value;
    PiecesAfterSeparator(key, value, '=');
    PiecesFacts(value, '=');
    assert Pieces(item, '=') == [key, value];
    assert item[|key|] == '=';
    assert Split(item, '=') == [key, value];
  }

  /** `key=` has no value once the trailing empty string is dropped, so it is dropped. */
  lemma ItemWithEmptyValueIsDropped(key: string)
    requires '=' !in key
    ensures ItemEntry(key + "=") == None
  {
    PiecesAfterSeparator(key, [], '=');
    assert key + "=" == key + "=" + [];
  }

  /** `a=b=c` splits into three strings and is dropped. */
  lemma ItemWithTwoSeparatorsIsDropped(a: string, b: string, c: string)
    requires '=' !in a && '=' !in b && '=' !in c && c != []
    ensures ItemEntry(a + "=" + b + "=" + c) == None
  {
    var item := a + "=" + b + "=" + c;
    PiecesAfterSeparator(b, c, '=');
    PiecesAfterSeparator(a, b + "=" + c, '=');
    PiecesFacts(c, '=');
    assert item == a + "=" + (b + "=" + c);
    assert Pieces(item, '=') == [a, b, c];
    assert item[|a|] == '=';
    assert Split(item, '=') == [a, b, c];
  }

  /** `key=value=` keeps `value`: Java drops the trailing empty string, so the item
      still splits into two strings. */
  lemma TrailingSeparatorIsIgnored(key: string, value: string)
    requires '=' !in key && '=' !in value && value != []
    ensures ItemEntry(key + "=" + value + "=") == Some((Trim(key), Trim(value)))
  {
    PiecesAfterSeparator(value, [], '=');
    PiecesAfterSeparator(key, value + "=", '=');
    assert key + "=" + value + "=" == key + "=" + (value + "=");
    assert value + "=" == value + "=" + [];
    var p := Pieces(key + "=" + value + "=", '=');
    assert p == [key, value, []];
    assert DropTrailingEmpty(p) == DropTrailingEmpty([key, value]);
  }

  /** The pieces of `a`, a separator, then `b`, when `a` holds no separator. */
  lemma {:induction false} PiecesAfterSeparator(a: string, b: string, sep: char)
    requires sep !in a
    ensures Pieces(a + [sep] + b, sep) == [a] + Pieces(b, sep)
    decreases |a|
  {
    var s := a + [sep] + b;
    if a != [] {
      assert s[1..] == a[1..] + [sep] + b;
      PiecesAfterSeparator(a[1..], b, sep);
      assert [s[0]] + a[1..] == a;
    } else {
      assert s[1..] == b;
    }
  }

  /** Joining tab-free columns with tabs and cutting at the tabs gives them back. */
  lemma {:induction false} PiecesOfJoin(columns: seq<string>, sep: char)
    requires |columns| >= 1
    requires forall k :: 0 <= k < |columns| ==> sep !in columns[k]
    ensures Pieces(Join(columns, sep), sep) == columns
    decreases |columns|
  {
    if |columns| > 1 {
      PiecesOfJoin(columns[1..], sep);
      PiecesAfterSeparator(columns[0], Join(columns[1..], sep), sep);
      assert Join(columns, sep) == columns[0] + [sep] + Join(columns[1..], sep);
      assert [columns[0]] + columns[1..] == columns;
    } else {
      PiecesFacts(columns[0], sep);
    }
  }

  // ---------------------------------------------------------------------------
  // prepareDescription

  const DESCRIPTION_KEYS: seq<string> := ["Note", "description", "product"]

  /** `prepareDescription`: the value of the first key of `Note`, `description`,
      `product` that is present, or the empty string when none is. */
  function Description(attributes: map<string, string>): (d: string)
    ensures forall k :: 0 <= k < |DESCRIPTION_KEYS| && DESCRIPTION_KEYS[k] in attributes &&
                        (forall j :: 0 <= j < k ==> DESCRIPTION_KEYS[j] !in attributes)
                        ==> d == attributes[DESCRIPTION_KEYS[k]]
    ensures (forall k :: 0 <= k < |DESCRIPTION_KEYS| ==> DESCRIPTION_KEYS[k] !in attributes) ==> d == ""
  {
    assert DESCRIPTION_KEYS[0] == "Note" && DESCRIPTION_KEYS[1] == "description" && DESCRIPTION_KEYS[2] == "product";
    if "Note" in attributes then attributes["Note"]
    else if "description" in attributes then attributes["description"]
    else if "product" in attributes then attributes["product"]
    else ""
  }

  // ---------------------------------------------------------------------------
  // parseGeneLine

  /** The gene `parseGeneLine` builds from the columns of a row, `millis` being the
      clock reading used for the fallback id. `None` is the `null` its `catch`
      returns: for a start or end column that is not a 64-bit integer, or for fewer
      than nine columns (an index out of bounds). */
  function GeneOfColumns(parts: seq<string>, millis: nat): (gene: Option<Gene>)
    ensures gene.Some? <==> |parts| >= COLUMNS && ParseLong(parts[3]).Some? && ParseLong(parts[4]).Some?
    ensures gene.Some? ==> && gene.value.biotype == Some(DEFAULT_BIOTYPE)
                           && gene.value.isolate.None? && gene.value.orthogroup.None?
  {
    if |parts| < COLUMNS then None
    else
      var start, end := ParseLong(parts[3]), ParseLong(parts[4]);
      if start.None? || end.None? then None
      else
        var attributes := AttributesOf(Split(parts[8], ';'));
        Some(Gene(
          geneId := if "ID" in attributes then attributes["ID"] else UNKNOWN_ID_PREFIX + DecimalString(millis),
          symbol := if "Name" in attributes then Some(attributes["Name"]) else None,
          biotype := Some(DEFAULT_BIOTYPE),
          description := Some(Description(attributes)),
          start := start.value,
          end := end.value,
          strand := Some(parts[6]),
          orthogroup := None,
          isolate := None))
  }

  /** `parseGeneLine`: fills a gene field by field; a parse failure abandons it. */
  method ParseGeneLine(parts: seq<string>, millis: nat) returns (gene: Option<Gene>)
    ensures gene == GeneOfColumns(parts, millis)
  {
    if |parts| < COLUMNS {
      return None;
    }
    var start := ParseLong(parts[3]);
    if start.None? {
      return None;
    }
    var end := ParseLong(parts[4]);
    if end.None? {
      return None;
    }
    var g := Gene("", None, None, None, start.value, end.value, Some(parts[6]), None, None);
    var attributes := ParseAttributes(parts[8]);
    g := g.(geneId := if "ID" in attributes then attributes["ID"] else UNKNOWN_ID_PREFIX + DecimalString(millis));
    g := g.(symbol := if "Name" in attributes then Some(attributes["Name"]) else None);
    g := g.(description := Some(Description(attributes)));
    g := g.(biotype := Some(DEFAULT_BIOTYPE));
    return Some(g);
  }

  // ---------------------------------------------------------------------------
  // The line loop of loadGff

  /** A line the loop skips before splitting it. */
  predicate IsCommentOrBlank(line: string)
  {
    StartsWith(line, "#") || Trim(line) == []
  }

  /** The gene one line contributes, if any, `millis` being the clock reading taken
      while it is parsed. */
  function LineGene(line: string, millis: nat): (gene: Option<Gene>)
    ensures gene.Some? <==> && !IsCommentOrBlank(line)
                            && |Split(line, TAB)| >= COLUMNS
                            && EqualsIgnoreCase("gene", Split(line, TAB)[2])
                            && ParseLong(Split(line, TAB)[3]).Some?
                            && ParseLong(Split(line, TAB)[4]).Some?
  {
    if IsCommentOrBlank(line) then None
    else
      var parts := Split(line, TAB);
      if |parts| < COLUMNS || !EqualsIgnoreCase("gene", parts[2]) then None
      else GeneOfColumns(parts, millis)
  }

  /** What each line yields, `clock(i)` being the clock reading while line `i` is parsed. */
  function LineResults(lines: seq<string>, clock: nat -> nat): seq<Option<Gene>>
  {
    seq(|lines|, i requires 0 <= i < |lines| => LineGene(lines[i], clock(i)))
  }

  /** The values present in `results`, in order. */
  function Present<T>(results: seq<Option<T>>): (values: seq<T>)
    ensures |values| <= |results|
  {
    if results == [] then []
    else
      var init := Present(results[..|results| - 1]);
      match results[|results| - 1]
      case Some(v) => init + [v]
      case None => init
  }

  /** The indices of `results` that hold a value, in increasing order. */
  function PresentIndices<T>(results: seq<Option<T>>): (idx: seq<nat>)
    ensures forall k :: 0 <= k < |idx| ==> idx[k] < |results| && results[idx[k]].Some?
    ensures forall k, l :: 0 <= k < l < |idx| ==> idx[k] < idx[l]
    ensures forall i :: 0 <= i < |results| && results[i].Some? ==> i in idx
  {
    if results == [] then []
    else
      var n := |results| - 1;
      var init := PresentIndices(results[..n]);
      assert forall i :: 0 <= i < n ==> results[..n][i] == results[i];
      if results[n].Some? then init + [n] else init
  }

  /** The k-th value present is the one at the k-th index holding a value. */
  lemma {:induction false} PresentFollowsIndices<T>(results: seq<Option<T>>)
    ensures var values, idx := Present(results), PresentIndices(results);
            && |values| == |idx|
            && forall k :: 0 <= k < |idx| ==> results[idx[k]] == Some(values[k])
    decreases |results|
  {
    if results != [] {
      var n := |results| - 1;
      PresentFollowsIndices(results[..n]);
      assert forall i :: 0 <= i < n ==> results[..n][i] == results[i];
    }
  }

  /** The genes the loop collects from `lines`. */
  function GenesOf(lines: seq<string>, clock: nat -> nat): (genes: seq<Gene>)
    ensures |genes| <= |lines|
  {
    Present(LineResults(lines, clock))
  }

  /** The indices of the lines that yield a gene, in increasing order. */
  function GeneLines(lines: seq<string>, clock: nat -> nat): seq<nat>
  {
    PresentIndices(LineResults(lines, clock))
  }

  /** The k-th gene collected is the gene of the k-th line that yields one, and every
      line that yields a gene is among those lines: genes keep the order of their
      lines, and a line that yields nothing (a comment, a short row, another feature
      type, a bad coordinate) does not stop the lines after it. */
  lemma GenesFollowLines(lines: seq<string>, clock: nat -> nat)
    ensures var genes, idx := GenesOf(lines, clock), GeneLines(lines, clock);
            && |genes| == |idx|
            && (forall k :: 0 <= k < |idx| ==> idx[k] < |lines| && LineGene(lines[idx[k]], clock(idx[k])) == Some(genes[k]))
            && (forall k, l :: 0 <= k < l < |idx| ==> idx[k] < idx[l])
            && (forall i :: 0 <= i < |lines| && LineGene(lines[i], clock(i)).Some? ==> i in idx)
  {
    PresentFollowsIndices(LineResults(lines, clock));
  }

  /** `loadGff`'s loop: skip comments, blank lines, short rows and non-gene
      features; keep every gene `parseGeneLine` returns. */
  method LoadGff(lines: seq<string>, clock: nat -> nat) returns (genesToSave: seq<Gene>)
    ensures genesToSave == GenesOf(lines, clock)
  {
    genesToSave := [];
    ghost var results := LineResults(lines, clock);
    var i := 0;
    while i < |lines|
      invariant 0 <= i <= |lines|
      invariant genesToSave == Present(results[..i])
    {
      var line := lines[i];
      ghost var done := results[..i + 1];
      assert done[..i] == results[..i] && done[i] == LineGene(line, clock(i));
      i := i + 1;
      if StartsWith(line, "#") || Trim(line) == [] {
        continue;
      }
      var parts := Split(line, TAB);
      if |parts| < COLUMNS {
        continue;
      }
      var featureType := parts[2];
      if EqualsIgnoreCase("gene", featureType) {
        var gene := ParseGeneLine(parts, clock(i - 1));
        if gene.Some? {
          genesToSave := genesToSave + [gene.value];
        }
      }
    }
    assert results[..|lines|] == results;
  }

  // ---------------------------------------------------------------------------
  // Which lines yield a gene

  /** Comment lines and lines made only of blanks never yield a gene. */
  lemma CommentOrBlankLineYieldsNoGene(line: string, millis: nat)
    requires StartsWith(line, "#") || forall i :: 0 <= i < |line| ==> line[i] <= ' '
    ensures LineGene(line, millis) == None
  {
  }

  /** Rows with fewer than nine columns after the split never yield a gene. */
  lemma ShortRowYieldsNoGene(line: string, millis: nat)
    requires |Split(line, TAB)| < COLUMNS
    ensures LineGene(line, millis) == None
  {
  }

  /** Nine tab-free columns joined with tabs, the last one not empty, split back into
      the same nine columns. */
  lemma JoinedColumnsSplit(columns: seq<string>)
    requires |columns| == COLUMNS && columns[COLUMNS - 1] != []
    requires forall k :: 0 <= k < |columns| ==> TAB !in columns[k]
    ensures Split(Join(columns, TAB), TAB) == columns
  {
    var line := Join(columns, TAB);
    PiecesOfJoin(columns, TAB);
    PiecesFacts(line, TAB);
    SplitFacts(line, TAB);
  }

  /** Nine columns whose last one is empty count as eight: `split` drops the empty
      attribute column, and the row is skipped. */
  lemma EmptyAttributeColumnYieldsNoGene(columns: seq<string>, millis: nat)
    requires |columns| == COLUMNS && columns[COLUMNS - 1] == []
    requires forall k :: 0 <= k < |columns| ==> TAB !in columns[k]
    ensures |Split(Join(columns, TAB), TAB)| < COLUMNS
    ensures LineGene(Join(columns, TAB), millis) == None
  {
    var line := Join(columns, TAB);
    PiecesOfJoin(columns, TAB);
    PiecesFacts(line, TAB);
    SplitFacts(line, TAB);
  }

  /** Rows of another feature type (`mRNA`, `CDS`, ...) never yield a gene. */
  lemma OtherFeatureYieldsNoGene(line: string, millis: nat)
    requires |Split(line, TAB)| >= COLUMNS
    requires !EqualsIgnoreCase("gene", Split(line, TAB)[2])
    ensures LineGene(line, millis) == None
  {
  }

  /** The feature type is compared ignoring case. */
  lemma FeatureTypeExamples()
    ensures EqualsIgnoreCase("gene", "gene") && EqualsIgnoreCase("gene", "Gene") && EqualsIgnoreCase("gene", "GENE")
    ensures !EqualsIgnoreCase("gene", "mRNA") && !EqualsIgnoreCase("gene", "CDS") && !EqualsIgnoreCase("gene", "genes")
  {
    assert LowerChar("gene"[0]) != LowerChar("mRNA"[0]);
  }

  /** A gene row whose start or end is not a 64-bit integer yields no gene. */
  lemma BadCoordinateYieldsNoGene(line: string, millis: nat)
    requires |Split(line, TAB)| >= COLUMNS
    requires ParseLong(Split(line, TAB)[3]).None? || ParseLong(Split(line, TAB)[4]).None?
    ensures LineGene(line, millis) == None
  {
  }

  /** A gene row of nine tab-free columns, the last one not empty, yields a gene
      whose fields come from its columns and its attributes. */
  lemma GeneRowYieldsGene(columns: seq<string>, millis: nat)
    requires |columns| == COLUMNS && columns[COLUMNS - 1] != []
    requires forall k :: 0 <= k < |columns| ==> TAB !in columns[k]
    requires !IsCommentOrBlank(Join(columns, TAB))
    requires EqualsIgnoreCase("gene", columns[2])
    requires ParseLong(columns[3]).Some? && ParseLong(columns[4]).Some?
    ensures var gene, attributes := LineGene(Join(columns, TAB), millis), AttributesOf(Split(columns[8], ';'));
            && gene.Some?
            && gene.value.start == ParseLong(columns[3]).value
            && gene.value.end == ParseLong(columns[4]).value
            && gene.value.strand == Some(columns[6])
            && gene.value.geneId == (if "ID" in attributes then attributes["ID"] else UNKNOWN_ID_PREFIX + DecimalString(millis))
            && gene.value.symbol == (if "Name" in attributes then Some(attributes["Name"]) else None)
            && gene.value.description == Some(Description(attributes))
            && gene.value.biotype == Some(DEFAULT_BIOTYPE)
            && gene.value.isolate == None && gene.value.orthogroup == None
  {
    JoinedColumnsSplit(columns);
  }
}
