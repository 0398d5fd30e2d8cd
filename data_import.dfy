/**
 * The data import script: spreadsheet rows turned into the app's quote,
 * prompt, ranking-criteria and medium lists.  A sheet read with column
 * headers gives one record per row (`Record`, a missing cell is an absent
 * key); a sheet read by position gives one list of cells per row (`Line`,
 * a missing cell is `None`).
 */
module DataImport {
  import opened Wrappers
  import opened Text
  import opened Seqs
  import opened StringOrder

  datatype Cell = StrCell(s: string) | NumCell(n: int) | BoolCell(b: bool)

  type Record = map<string, Cell>
  type Line = seq<Option<Cell>>

  /** `r.Column`. */
  function Field(r: Record, column: string): Option<Cell>
  {
    if column in r then Some(r[column]) else None
  }

  /** `r[i]`. */
  function Column(r: Line, i: nat): Option<Cell>
  {
    if i < |r| then r[i] else None
  }

  /** JavaScript truthiness of a cell: an empty text, `0`, `false` and a missing cell are falsy. */
  predicate CellTruthy(c: Option<Cell>)
  {
    match c
    case None => false
    case Some(StrCell(s)) => s != ""
    case Some(NumCell(n)) => n != 0
    case Some(BoolCell(b)) => b
  }

  /** `String(value)`, where a missing cell is `undefined`. */
  function CellText(c: Option<Cell>): string
  {
    match c
    case None => "undefined"
    case Some(StrCell(s)) => s
    case Some(NumCell(n)) => IntToString(n)
    case Some(BoolCell(b)) => if b then "true" else "false"
  }

  /** No white space at either end. */
  predicate Trimmed(s: string)
  {
    s == [] || (!IsWhitespace(s[0]) && !IsWhitespace(s[|s| - 1]))
  }

  /** `String(value).trim()`. */
  function TrimmedText(c: Option<Cell>): (r: string)
    ensures Trimmed(r)
  {
    TrimSpec(CellText(c));
    Trim(CellText(c))
  }

  // ----- quotes, prompts and ranking criteria -----

  datatype QuoteRow = QuoteRow(quote: string, author: string)

  predicate HasQuote(r: Record)
  {
    CellTruthy(Field(r, "Quote"))
  }

  /** One row of the quotes sheet: the trimmed quote, and the trimmed author or `'Unknown'`. */
  function QuoteOf(r: Record): (q: QuoteRow)
    ensures Trimmed(q.quote) && Trimmed(q.author)
  {
    UnknownTrimmed();
    var author := if CellTruthy(Field(r, "Author")) then TrimmedText(Field(r, "Author")) else "Unknown";
    QuoteRow(TrimmedText(Field(r, "Quote")), author)
  }

  lemma UnknownTrimmed()
    ensures Trimmed("Unknown")
  {
    assert "Unknown"[0] == 'U' && "Unknown"[6] == 'n';
  }

  /** `rows.filter(r => r.Quote).map(r => ({ quote: ..., author: ... }))`. */
  function ImportQuotes(rows: seq<Record>): seq<QuoteRow>
  {
    FilterMap(rows, HasQuote, QuoteOf)
  }

  /**
   * One quote per row that has one: each such row gives its trimmed quote
   * and author, and every entry, trimmed, comes from such a row.
   */
  lemma ImportQuotesSpec(rows: seq<Record>, i: nat, q: QuoteRow)
    ensures |ImportQuotes(rows)| == Count(rows, HasQuote) <= |rows|
    ensures i < |rows| && HasQuote(rows[i]) ==> QuoteOf(rows[i]) in ImportQuotes(rows)
    ensures q in ImportQuotes(rows) ==>
              Trimmed(q.quote) && Trimmed(q.author) &&
              exists j :: 0 <= j < |rows| && HasQuote(rows[j]) && q == QuoteOf(rows[j])
  {
    FilterMapLength(rows, HasQuote, QuoteOf);
    if i < |rows| && HasQuote(rows[i]) {
      FilterMapComplete(rows, HasQuote, QuoteOf, i);
    }
    if q in ImportQuotes(rows) {
      FilterMapSound(rows, HasQuote, QuoteOf, q);
    }
  }

  /** A row whose author cell is empty or missing is credited to `'Unknown'`. */
  lemma UnknownAuthor(r: Record)
    requires HasQuote(r) && !CellTruthy(Field(r, "Author"))
    ensures QuoteOf(r).author == "Unknown"
  {
  }

  /** `cells.filter(c => c).map(c => String(c).trim())`, the shape the prompt and criteria sheets share. */
  function TrimmedTexts(cells: seq<Option<Cell>>): seq<string>
  {
    FilterMap(cells, CellTruthy, TrimmedText)
  }

  /** Each non-empty cell gives its trimmed text, and every text comes from a non-empty cell. */
  lemma TrimmedTextsSpec(cells: seq<Option<Cell>>, i: nat, t: string)
    ensures |TrimmedTexts(cells)| == Count(cells, CellTruthy) <= |cells|
    ensures i < |cells| && CellTruthy(cells[i]) ==> TrimmedText(cells[i]) in TrimmedTexts(cells)
    ensures t in TrimmedTexts(cells) ==>
              Trimmed(t) && exists j :: 0 <= j < |cells| && CellTruthy(cells[j]) && t == TrimmedText(cells[j])
  {
    FilterMapLength(cells, CellTruthy, TrimmedText);
    if i < |cells| && CellTruthy(cells[i]) {
      FilterMapComplete(cells, CellTruthy, TrimmedText, i);
    }
    if t in TrimmedTexts(cells) {
      FilterMapSound(cells, CellTruthy, TrimmedText, t);
    }
  }

  /** The prompt cell of every row. */
  function PromptCells(rows: seq<Record>): (cells: seq<Option<Cell>>)
    ensures |cells| == |rows| && forall i :: 0 <= i < |rows| ==> cells[i] == Field(rows[i], "Prompt")
  {
    seq(|rows|, (i: int) requires 0 <= i < |rows| => Field(rows[i], "Prompt"))
  }

  /** `rows.filter(r => r.Prompt).map(r => String(r.Prompt).trim())`. */
  function ImportPrompts(rows: seq<Record>): seq<string>
  {
    TrimmedTexts(PromptCells(rows))
  }

  /** Every row with a prompt gives its trimmed text, and every prompt kept is the trimmed text of such a row. */
  lemma ImportPromptsSpec(rows: seq<Record>, i: nat, t: string)
    ensures |ImportPrompts(rows)| <= |rows|
    ensures i < |rows| && CellTruthy(Field(rows[i], "Prompt")) ==> TrimmedText(Field(rows[i], "Prompt")) in ImportPrompts(rows)
    ensures t in ImportPrompts(rows) ==>
              Trimmed(t) && exists j :: 0 <= j < |rows| && CellTruthy(Field(rows[j], "Prompt")) && t == TrimmedText(Field(rows[j], "Prompt"))
  {
    var cells := PromptCells(rows);
    TrimmedTextsSpec(cells, i, t);
    if t in ImportPrompts(rows) {
      var j :| 0 <= j < |cells| && CellTruthy(cells[j]) && t == TrimmedText(cells[j]);
      assert cells[j] == Field(rows[j], "Prompt");
    }
  }

  /** The rows after the header row: `rows.slice(1)`. */
  function Body(rows: seq<Line>): (body: seq<Line>)
    ensures |body| == if rows == [] then 0 else |rows| - 1
    ensures forall i :: 0 <= i < |body| ==> body[i] == rows[i + 1]
  {
    if rows == [] then [] else rows[1..]
  }

  /** The first cell of every row after the header. */
  function CriteriaCells(rows: seq<Line>): (cells: seq<Option<Cell>>)
    ensures |cells| == |Body(rows)| && forall i :: 0 <= i < |cells| ==> cells[i] == Column(rows[i + 1], 0)
  {
    var body := Body(rows);
    seq(|body|, (i: int) requires 0 <= i < |body| => Column(body[i], 0))
  }

  /** `rows.slice(1).filter(r => r[0]).map(r => String(r[0]).trim())`. */
  function ImportCriteria(rows: seq<Line>): seq<string>
  {
    TrimmedTexts(CriteriaCells(rows))
  }

  /** Each row after the header with a first cell gives that cell trimmed; the header row never does. */
  lemma ImportCriteriaSpec(rows: seq<Line>, i: nat, t: string)
    ensures |ImportCriteria(rows)| <= |Body(rows)|
    ensures 0 < i < |rows| && CellTruthy(Column(rows[i], 0)) ==> TrimmedText(Column(rows[i], 0)) in ImportCriteria(rows)
    ensures t in ImportCriteria(rows) ==>
              Trimmed(t) && exists j :: 0 < j < |rows| && CellTruthy(Column(rows[j], 0)) && t == TrimmedText(Column(rows[j], 0))
  {
    var cells := CriteriaCells(rows);
    TrimmedTextsSpec(cells, if i > 0 then i - 1 else 0, t);
    if t in ImportCriteria(rows) {
      var j :| 0 <= j < |cells| && CellTruthy(cells[j]) && t == TrimmedText(cells[j]);
      assert cells[j] == Column(rows[j + 1], 0);
    }
  }

  // ----- one medium name -----

  /** Line 94: a leading bullet `•` and the white space after it are removed. */
  function StripBullet(t: string): (r: string)
    ensures |r| <= |t|
  {
    if |t| > 0 && t[0] == '•' then TrimStart(t[1..]) else t
  }

  const ArtPrefixes: seq<string> := ["Sketch", "Sketching", "Model", "Models", "Textile", "Weaving"]

  /** `text.replace(new RegExp('^(' + prefix + ')([A-Z])'), '$1: $2')`. */
  function SplitCamel(t: string, prefix: string): string
  {
    if prefix <= t && |t| > |prefix| && 'A' <= t[|prefix|] <= 'Z' then prefix + ": " + t[|prefix|..] else t
  }

  /** The prefix loop, one prefix after the other in list order. */
  function SplitCamels(t: string, prefixes: seq<string>): string
  {
    if prefixes == [] then t
    else SplitCamel(SplitCamels(t, prefixes[..|prefixes| - 1]), prefixes[|prefixes| - 1])
  }

  /** `text.replace(/:(?!\s)/g, ': ')`: a space after every colon not already followed by white space. */
  function SpaceColons(s: string): (r: string)
    ensures s != [] ==> r != [] && r[0] == s[0]
  {
    if s == [] then []
    else if s[0] == ':' && (|s| == 1 || !IsWhitespace(s[1])) then ": " + SpaceColons(s[1..])
    else [s[0]] + SpaceColons(s[1..])
  }

  /** `text.replace(/\s+/g, ' ')`: every run of white space becomes one space. */
  function CollapseSpaces(s: string): (r: string)
    ensures s != [] ==> r != [] && r[0] == if IsWhitespace(s[0]) then ' ' else s[0]
    decreases |s|
  {
    if s == [] then []
    else if IsWhitespace(s[0]) then
      assert |TrimStart(s)| < |s|;
      " " + CollapseSpaces(TrimStart(s))
    else [s[0]] + CollapseSpaces(s[1..])
  }

  /** Every colon is followed by white space. */
  predicate ColonsSpaced(s: string)
  {
    forall i :: 0 <= i < |s| && s[i] == ':' ==> i + 1 < |s| && IsWhitespace(s[i + 1])
  }

  /** No two white-space characters in a row. */
  predicate SingleSpaced(s: string)
  {
    forall i :: 0 <= i < |s| - 1 ==> !(IsWhitespace(s[i]) && IsWhitespace(s[i + 1]))
  }

  lemma {:induction false} SpaceColonsSpec(s: string)
    ensures ColonsSpaced(SpaceColons(s))
  {
    if s != [] {
      SpaceColonsSpec(s[1..]);
      var rest := SpaceColons(s[1..]);
      var r := SpaceColons(s);
      if s[0] == ':' && (|s| == 1 || !IsWhitespace(s[1])) {
        assert r == ": " + rest;
        forall i | 0 <= i < |r| && r[i] == ':'
          ensures i + 1 < |r| && IsWhitespace(r[i + 1])
        {
          if i >= 2 {
            assert r[i] == rest[i - 2] && r[i + 1] == rest[i - 1];
          }
        }
      } else {
        assert r == [s[0]] + rest;
        forall i | 0 <= i < |r| && r[i] == ':'
          ensures i + 1 < |r| && IsWhitespace(r[i + 1])
        {
          if i >= 1 {
            assert r[i] == rest[i - 1];
          }
        }
      }
    }
  }

  lemma SuffixColonsSpaced(s: string, k: nat)
    requires ColonsSpaced(s) && k <= |s|
    ensures ColonsSpaced(s[k..])
  {
    forall i | 0 <= i < |s[k..]| && s[k..][i] == ':'
      ensures i + 1 < |s[k..]| && IsWhitespace(s[k..][i + 1])
    {
      assert s[k + i] == ':';
    }
  }

  /** Collapsing white space leaves every colon followed by white space, and leaves no run of two. */
  lemma CollapseSpacesSpec(s: string)
    ensures SingleSpaced(CollapseSpaces(s))
    ensures ColonsSpaced(s) ==> ColonsSpaced(CollapseSpaces(s))
  {
    CollapseSingleSpaced(s);
    if ColonsSpaced(s) {
      CollapseKeepsColons(s);
    }
  }

  lemma {:induction false} CollapseSingleSpaced(s: string)
    ensures SingleSpaced(CollapseSpaces(s))
    decreases |s|
  {
    if s != [] {
      var r := CollapseSpaces(s);
      var t := if IsWhitespace(s[0]) then TrimStart(s) else s[1..];
      assert |t| < |s|;
      CollapseSingleSpaced(t);
      var rest := CollapseSpaces(t);
      assert r == [r[0]] + rest;
      forall i | 0 <= i < |r| - 1
        ensures !(IsWhitespace(r[i]) && IsWhitespace(r[i + 1]))
      {
        if i >= 1 {
          assert r[i] == rest[i - 1] && r[i + 1] == rest[i];
        }
      }
    }
  }

  lemma {:induction false} CollapseKeepsColons(s: string)
    requires ColonsSpaced(s)
    ensures ColonsSpaced(CollapseSpaces(s))
    decreases |s|
  {
    if s != [] {
      var r := CollapseSpaces(s);
      var t := if IsWhitespace(s[0]) then TrimStart(s) else s[1..];
      assert |t| < |s|;
      SuffixColonsSpaced(s, |s| - |t|);
      CollapseKeepsColons(t);
      var rest := CollapseSpaces(t);
      assert r == [r[0]] + rest;
      forall i | 0 <= i < |r| && r[i] == ':'
        ensures i + 1 < |r| && IsWhitespace(r[i + 1])
      {
        if i >= 1 {
          assert r[i] == rest[i - 1];
        } else {
          assert s[0] == ':' && IsWhitespace(s[1]);
        }
      }
    }
  }

  /** The characters of `s` that are not white space, in their order. */
  function Visible(s: string): string
  {
    if s == [] then [] else (if IsWhitespace(s[0]) then [] else [s[0]]) + Visible(s[1..])
  }

  lemma {:induction false} VisibleAppend(a: string, b: string)
    ensures Visible(a + b) == Visible(a) + Visible(b)
  {
    if a == [] {
      assert a + b == b;
    } else {
      assert (a + b)[1..] == a[1..] + b;
      VisibleAppend(a[1..], b);
    }
  }

  lemma {:induction false} VisibleWhitespace(s: string)
    requires AllWhitespace(s)
    ensures Visible(s) == []
  {
    if s != [] {
      VisibleWhitespace(s[1..]);
    }
  }

  /** Line 94 removes a leading bullet and all the white space after it, and leaves any other text as it is. */
  lemma StripBulletSpec(t: string)
    ensures (t == [] || t[0] != '•') ==> StripBullet(t) == t
    ensures t != [] && t[0] == '•' ==>
              exists k :: 1 <= k <= |t| && AllWhitespace(t[1..k]) && StripBullet(t) == t[k..] &&
                          (StripBullet(t) == [] || !IsWhitespace(StripBullet(t)[0]))
  {
    if t != [] && t[0] == '•' {
      var u := t[1..];
      var r := TrimStart(u);
      var k := |t| - |r|;
      assert StripBullet(t) == r;
      assert u[..|u| - |r|] == t[1..k];
      assert r == u[|u| - |r|..] == t[k..];
      assert AllWhitespace(t[1..k]);
    }
  }

  /** Spacing the colons adds only white space: the other characters are those of `s`, in their order. */
  lemma {:induction false} SpaceColonsVisible(s: string)
    ensures Visible(SpaceColons(s)) == Visible(s)
  {
    if s != [] {
      SpaceColonsVisible(s[1..]);
      if s[0] == ':' && (|s| == 1 || !IsWhitespace(s[1])) {
        assert ": " + SpaceColons(s[1..]) == [':'] + (" " + SpaceColons(s[1..]));
        VisibleAppend([':'], " " + SpaceColons(s[1..]));
        VisibleAppend(" ", SpaceColons(s[1..]));
      } else {
        VisibleAppend([s[0]], SpaceColons(s[1..]));
      }
    }
  }

  /**
   * Collapsing white space keeps the other characters of `s` in their
   * order, and the only white space it leaves is the plain space.
   */
  lemma {:induction false} CollapseSpacesVisible(s: string)
    ensures Visible(CollapseSpaces(s)) == Visible(s)
    ensures forall i :: 0 <= i < |CollapseSpaces(s)| && IsWhitespace(CollapseSpaces(s)[i]) ==> CollapseSpaces(s)[i] == ' '
    decreases |s|
  {
    if s != [] {
      var r := CollapseSpaces(s);
      if IsWhitespace(s[0]) {
        var t := TrimStart(s);
        CollapseSpacesVisible(t);
        assert r == " " + CollapseSpaces(t);
        VisibleAppend(" ", CollapseSpaces(t));
        assert s == s[..|s| - |t|] + t;
        VisibleAppend(s[..|s| - |t|], t);
        VisibleWhitespace(s[..|s| - |t|]);
        forall i | 0 <= i < |r| && IsWhitespace(r[i])
          ensures r[i] == ' '
        {
          if i > 0 {
            assert r[i] == CollapseSpaces(t)[i - 1];
          }
        }
      } else {
        CollapseSpacesVisible(s[1..]);
        assert r == [s[0]] + CollapseSpaces(s[1..]);
        VisibleAppend([s[0]], CollapseSpaces(s[1..]));
        forall i | 0 <= i < |r| && IsWhitespace(r[i])
          ensures r[i] == ' '
        {
          assert i > 0;
          assert r[i] == CollapseSpaces(s[1..])[i - 1];
        }
      }
    }
  }

  /**
   * After lines 102 and 104 every colon is followed by white space, no run
   * of two white-space characters remains, and the other characters are
   * those of `s`, in their order.
   */
  lemma NormalizedSpacing(s: string)
    ensures ColonsSpaced(CollapseSpaces(SpaceColons(s)))
    ensures SingleSpaced(CollapseSpaces(SpaceColons(s)))
    ensures Visible(CollapseSpaces(SpaceColons(s))) == Visible(s)
  {
    SpaceColonsSpec(s);
    CollapseSpacesSpec(SpaceColons(s));
    SpaceColonsVisible(s);
    CollapseSpacesVisible(SpaceColons(s));
  }

  /** `text.split(': ')`. */
  function SplitSegments(s: string): (r: seq<string>)
    ensures |r| >= 1
    decreases |s|
  {
    if |s| < 2 then [s]
    else if s[0] == ':' && s[1] == ' ' then [""] + SplitSegments(s[2..])
    else
      var rest := SplitSegments(s[1..]);
      [[s[0]] + rest[0]] + rest[1..]
  }

  /** `parts.join(': ')`. */
  function Join(parts: seq<string>): string
  {
    if parts == [] then ""
    else if |parts| == 1 then parts[0]
    else parts[0] + ": " + Join(parts[1..])
  }

  /** Joining the segments with the separator gives back the text. */
  lemma {:induction false} JoinSplit(s: string)
    ensures Join(SplitSegments(s)) == s
    decreases |s|
  {
    if |s| >= 2 {
      if s[0] == ':' && s[1] == ' ' {
        JoinSplit(s[2..]);
        var rest := SplitSegments(s[2..]);
        assert ([""] + rest)[1..] == rest;
        assert s == ": " + s[2..];
      } else {
        JoinSplit(s[1..]);
        JoinConsHead(s[0], SplitSegments(s[1..]));
        assert s == [s[0]] + s[1..];
      }
    }
  }

  /** Putting a character in front of the first segment puts it in front of the joined text. */
  lemma JoinConsHead(c: char, rest: seq<string>)
    requires |rest| >= 1
    ensures Join([[c] + rest[0]] + rest[1..]) == [c] + Join(rest)
  {
    var head := rest[0];
    var parts := [[c] + head] + rest[1..];
    if |rest| == 1 {
      assert parts == [[c] + head];
    } else {
      assert parts[1..] == rest[1..];
      JoinUnfold(parts);
      JoinUnfold(rest);
      AppendAssoc([c], head, ": " + Join(rest[1..]));
    }
  }

  lemma JoinUnfold(parts: seq<string>)
    requires |parts| >= 2
    ensures Join(parts) == parts[0] + (": " + Join(parts[1..]))
  {
    AppendAssoc(parts[0], ": ", Join(parts[1..]));
  }

  lemma AppendAssoc(a: string, b: string, c: string)
    ensures (a + b) + c == a + (b + c)
  {
  }

  /**
   * The segments kept by the loop over `segments`, with `describe` standing
   * for the description heuristics of lines 113-121 on one trimmed,
   * non-empty segment: `None` to drop it, `Some(text)` for the text pushed.
   */
  function KeptSegment(seg: string, describe: string -> Option<string>): (r: seq<string>)
    ensures |r| <= 1
  {
    var trimmed := Trim(seg);
    if trimmed == "" then []
    else
      match describe(trimmed)
      case None => []
      case Some(text) => [text]
  }

  /** The `cleaned` array after the loop has seen `segs`. */
  function CleanSegments(segs: seq<string>, describe: string -> Option<string>): (r: seq<string>)
    ensures |r| <= |segs|
  {
    if segs == [] then []
    else CleanSegments(segs[..|segs| - 1], describe) + KeptSegment(segs[|segs| - 1], describe)
  }

  lemma CleanSegmentsPush(segs: seq<string>, k: nat, describe: string -> Option<string>, text: string)
    requires k < |segs| && Trim(segs[k]) != "" && describe(Trim(segs[k])) == Some(text)
    ensures CleanSegments(segs[..k + 1], describe) == CleanSegments(segs[..k], describe) + [text]
  {
    assert segs[..k + 1][..k] == segs[..k];
  }

  lemma CleanSegmentsSkip(segs: seq<string>, k: nat, describe: string -> Option<string>)
    requires k < |segs| && KeptSegment(segs[k], describe) == []
    ensures CleanSegments(segs[..k + 1], describe) == CleanSegments(segs[..k], describe)
  {
    assert segs[..k + 1][..k] == segs[..k];
    assert CleanSegments(segs[..k], describe) + [] == CleanSegments(segs[..k], describe);
  }

  /** `.replace(/:\s*$/, '')`: a last colon followed by nothing but white space goes, with that white space. */
  function DropTrailingColon(s: string): string
  {
    var t := TrimEnd(s);
    if |t| > 0 && t[|t| - 1] == ':' then t[..|t| - 1] else s
  }

  /** `medium.replace(/^Word: Art/, 'WordArt')`. */
  function JoinWordArt(m: string): string
  {
    if "Word: Art" <= m then "WordArt" + m[9..] else m
  }

  /** `medium.charAt(0).toUpperCase() + medium.slice(1)` for a non-empty medium. */
  function Capitalize(m: string): (r: string)
    ensures |r| == |m|
    ensures m != [] ==> r[0] == UpperChar(m[0]) && r[1..] == m[1..]
    ensures m != [] ==> !('a' <= r[0] <= 'z')
  {
    if |m| > 0 then [UpperChar(m[0])] + m[1..] else m
  }

  /** The medium name the script derives from the text of a row's second cell. */
  function MediumText(raw: string, describe: string -> Option<string>): string
  {
    var text := SplitCamels(StripBullet(Trim(raw)), ArtPrefixes);
    var normal := CollapseSpaces(SpaceColons(text));
    var cleaned := CleanSegments(SplitSegments(normal), describe);
    Capitalize(JoinWordArt(Trim(DropTrailingColon(Join(cleaned)))))
  }

  /** A medium name that is not empty never starts with a lower-case letter. */
  lemma MediumCapitalized(raw: string, describe: string -> Option<string>)
    ensures MediumText(raw, describe) != "" ==> !('a' <= MediumText(raw, describe)[0] <= 'z')
  {
    var text := SplitCamels(StripBullet(Trim(raw)), ArtPrefixes);
    var normal := CollapseSpaces(SpaceColons(text));
    var cleaned := CleanSegments(SplitSegments(normal), describe);
    var m := JoinWordArt(Trim(DropTrailingColon(Join(cleaned))));
    assert MediumText(raw, describe) == Capitalize(m);
  }

  /** Lines 96-100: the prefix loop, `text` reassigned once per prefix. */
  method SplitArtPrefixes(start: string) returns (text: string)
    ensures text == SplitCamels(start, ArtPrefixes)
  {
    text := start;
    for k := 0 to |ArtPrefixes|
      invariant text == SplitCamels(start, ArtPrefixes[..k])
    {
      assert ArtPrefixes[..k + 1][..k] == ArtPrefixes[..k];
      text := SplitCamel(text, ArtPrefixes[k]);
    }
    assert ArtPrefixes[..|ArtPrefixes|] == ArtPrefixes;
  }

  /** Lines 108-123: the loop over the segments, pushing what it keeps onto `cleaned`. */
  method KeepSegments(segments: seq<string>, describe: string -> Option<string>) returns (cleaned: seq<string>)
    ensures cleaned == CleanSegments(segments, describe)
  {
    cleaned := [];
    for k := 0 to |segments|
      invariant cleaned == CleanSegments(segments[..k], describe)
    {
      var seg := segments[k];
      var trimmed := Trim(seg);
      if trimmed != "" {
        var kept := describe(trimmed);
        if kept.Some? {
          CleanSegmentsPush(segments, k, describe, kept.value);
          cleaned := cleaned + [kept.value];
        } else {
          CleanSegmentsSkip(segments, k, describe);
        }
      } else {
        CleanSegmentsSkip(segments, k, describe);
      }
    }
    CleanSegmentsAll(segments, describe);
  }

  lemma CleanSegmentsAll(segs: seq<string>, describe: string -> Option<string>)
    ensures CleanSegments(segs[..|segs|], describe) == CleanSegments(segs, describe)
  {
    assert segs[..|segs|] == segs;
  }

  /** Lines 92-131: the medium name of one row, worked out step by step. */
  method ProcessMedium(raw: string, describe: string -> Option<string>) returns (medium: string)
    ensures medium == MediumText(raw, describe)
  {
    var text := Trim(raw);
    text := StripBullet(text);
    text := SplitArtPrefixes(text);
    text := SpaceColons(text);
    text := CollapseSpaces(text);
    var segments := SplitSegments(text);
    var cleaned := KeepSegments(segments, describe);
    medium := Trim(DropTrailingColon(Join(cleaned)));
    medium := JoinWordArt(medium);
    if |medium| > 0 {
      medium := [UpperChar(medium[0])] + medium[1..];
    }
  }
  // ----- the medium lists -----

  /** Lines 87-89: any spelling of `3-d` becomes `3-D`, and a category starting with `Musical` becomes `Musical`. */
  function NormalizeCategory(c: string): (r: string)
    ensures ToLower(c) == "3-d" ==> r == "3-D"
    ensures ToLower(c) != "3-d" ==> r == if "Musical" <= c then "Musical" else c
  {
    var c1 := if ToLower(c) == "3-d" then "3-D" else c;
    if "Musical" <= c1 then "Musical" else c1
  }

  /** A normalised category is its own normal form. */
  lemma NormalizeCategoryIdempotent(c: string)
    ensures NormalizeCategory(NormalizeCategory(c)) == NormalizeCategory(c)
  {
    var r := NormalizeCategory(c);
    if r == "3-D" {
      assert ToLower(r) == "3-d";
    } else if r == "Musical" {
      assert ToLower(r) != "3-d";
    }
  }

  /**
   * The category and medium one row adds, or `None` for a row the loop
   * skips: one without a category or medium cell (line 84), or whose medium
   * comes out empty (line 132).
   */
  function RowEntry(r: Line, describe: string -> Option<string>): (e: Option<(string, string)>)
    ensures (!CellTruthy(Column(r, 0)) || !CellTruthy(Column(r, 1))) ==> e.None?
    ensures e.Some? ==> e.value.1 != "" && e.value.1 == MediumText(CellText(Column(r, 1)), describe)
  {
    if !CellTruthy(Column(r, 0)) || !CellTruthy(Column(r, 1)) then None
    else
      var medium := MediumText(CellText(Column(r, 1)), describe);
      if medium == "" then None
      else Some((NormalizeCategory(Trim(CellText(Column(r, 0)))), medium))
  }

  type Groups = map<string, seq<string>>

  /** `medium` listed under `cat`. */
  predicate Grouped(m: Groups, cat: string, medium: string)
  {
    cat in m && medium in m[cat]
  }

  /** Each list is non-empty and without repeats. */
  predicate WellGrouped(m: Groups)
  {
    forall c :: c in m ==> m[c] != [] && Distinct(m[c])
  }

  /** Lines 134-137: the category gets a list if it has none, and the medium is pushed unless already listed. */
  function AddMedium(m: Groups, cat: string, medium: string): (r: Groups)
    ensures r.Keys == m.Keys + {cat}
  {
    var list := if cat in m then m[cat] else [];
    if medium in list then m else m[cat := list + [medium]]
  }

  /** Adding lists exactly the one new pair more, and keeps the lists non-empty and without repeats. */
  lemma AddMediumSpec(m: Groups, cat: string, medium: string, c: string, x: string)
    ensures Grouped(AddMedium(m, cat, medium), c, x) <==> Grouped(m, c, x) || (c == cat && x == medium)
    ensures WellGrouped(m) ==> WellGrouped(AddMedium(m, cat, medium))
  {
    var list := if cat in m then m[cat] else [];
    if medium !in list && WellGrouped(m) {
      var r := AddMedium(m, cat, medium);
      forall c2 | c2 in r
        ensures r[c2] != [] && Distinct(r[c2])
      {
        if c2 == cat {
          var l := list + [medium];
          forall i, j | 0 <= i < j < |l|
            ensures l[i] != l[j]
          {
            if j < |list| {
              assert l[i] == list[i] && l[j] == list[j];
            } else {
              assert l[i] == list[i];
            }
          }
        }
      }
    }
  }

  /** What each row adds, in row order. */
  function Entries(rows: seq<Line>, describe: string -> Option<string>): (es: seq<Option<(string, string)>>)
    ensures |es| == |rows| && forall i :: 0 <= i < |rows| ==> es[i] == RowEntry(rows[i], describe)
  {
    seq(|rows|, (i: int) requires 0 <= i < |rows| => RowEntry(rows[i], describe))
  }

  /** What one row does to the dictionary. */
  function Step(m: Groups, e: Option<(string, string)>): Groups
  {
    match e
    case None => m
    case Some((cat, medium)) => AddMedium(m, cat, medium)
  }

  /** The `mediums` dictionary after the loop has seen rows adding `entries`. */
  function Collect(entries: seq<Option<(string, string)>>): Groups
  {
    if entries == [] then map[] else Step(Collect(entries[..|entries| - 1]), entries[|entries| - 1])
  }

  lemma CollectSnoc(es: seq<Option<(string, string)>>, i: nat)
    requires i < |es|
    ensures Collect(es[..i + 1]) == Step(Collect(es[..i]), es[i])
  {
    assert es[..i + 1][..i] == es[..i];
  }

  /** No category list is empty or repeats a medium. */
  lemma {:induction false} CollectWellGrouped(entries: seq<Option<(string, string)>>)
    ensures WellGrouped(Collect(entries))
  {
    if entries != [] {
      CollectWellGrouped(entries[..|entries| - 1]);
      var e := entries[|entries| - 1];
      if e.Some? {
        AddMediumSpec(Collect(entries[..|entries| - 1]), e.value.0, e.value.1, "", "");
      }
    }
  }

  /** A medium is listed under a category exactly when some row adds that pair. */
  lemma {:induction false} CollectMembers(entries: seq<Option<(string, string)>>, c: string, x: string)
    ensures Grouped(Collect(entries), c, x) <==> Some((c, x)) in entries
  {
    if entries != [] {
      var init := entries[..|entries| - 1];
      CollectMembers(init, c, x);
      var e := entries[|entries| - 1];
      if e.Some? {
        AddMediumSpec(Collect(init), e.value.0, e.value.1, c, x);
      }
      assert entries == init + [e];
    }
  }

  /** Every listed medium comes from a row giving that category and medium, and is non-empty and capitalised. */
  lemma CollectedMedium(rows: seq<Line>, describe: string -> Option<string>, c: string, x: string)
    ensures Grouped(Collect(Entries(rows, describe)), c, x) <==>
              exists i :: 0 <= i < |rows| && RowEntry(rows[i], describe) == Some((c, x))
    ensures Grouped(Collect(Entries(rows, describe)), c, x) ==> x != "" && !('a' <= x[0] <= 'z')
  {
    var es := Entries(rows, describe);
    CollectMembers(es, c, x);
    if Some((c, x)) in es {
      var i :| 0 <= i < |es| && es[i] == Some((c, x));
      MediumCapitalized(CellText(Column(rows[i], 1)), describe);
    }
  }

  const Categories: seq<string> := ["2-D", "3-D", "Computer", "Musical", "Physical"]

  /** The `ordered` object after the loop has seen `cats`: each category found, in that order, its mediums sorted. */
  function OrderGroups(m: Groups, cats: seq<string>): seq<(string, seq<string>)>
    requires WellGrouped(m)
  {
    if cats == [] then []
    else
      var c := cats[|cats| - 1];
      OrderGroups(m, cats[..|cats| - 1]) + if c in m then [(c, SortedList(m[c]))] else []
  }

  /** The category names of an ordered listing. */
  function Names(ordered: seq<(string, seq<string>)>): (r: seq<string>)
    ensures |r| == |ordered| && forall i :: 0 <= i < |ordered| ==> r[i] == ordered[i].0
  {
    seq(|ordered|, (i: int) requires 0 <= i < |ordered| => ordered[i].0)
  }

  /**
   * The ordered listing names exactly the given categories that were found,
   * in the given order, each with its mediums sorted.
   */
  lemma {:induction false} OrderGroupsSpec(m: Groups, cats: seq<string>)
    requires WellGrouped(m)
    ensures Names(OrderGroups(m, cats)) == Filter(cats, (c: string) => c in m)
    ensures forall i :: 0 <= i < |OrderGroups(m, cats)| ==>
              OrderGroups(m, cats)[i].0 in m && OrderGroups(m, cats)[i].1 == SortedList(m[OrderGroups(m, cats)[i].0])
  {
    if cats != [] {
      var init := cats[..|cats| - 1];
      var c := cats[|cats| - 1];
      OrderGroupsSpec(m, init);
      assert cats == init + [c];
      FilterAppend(init, [c], (c: string) => c in m);
      var r := OrderGroups(m, cats);
      var prev := OrderGroups(m, init);
      assert forall i :: 0 <= i < |prev| ==> r[i] == prev[i];
    }
  }

  /**
   * The file holds only categories among 2-D, 3-D, Computer, Musical and
   * Physical, in that order, each one that was found, each list sorted and
   * holding exactly that category's mediums.
   */
  lemma OrderedOutput(m: Groups, k: nat)
    requires WellGrouped(m)
    ensures IsSubsequence(Names(OrderGroups(m, Categories)), Categories)
    ensures forall c :: c in Names(OrderGroups(m, Categories)) <==> c in Categories && c in m
    ensures k < |OrderGroups(m, Categories)| ==>
              var entry := OrderGroups(m, Categories)[k];
              Sorted(entry.1) && forall x :: x in entry.1 <==> Grouped(m, entry.0, x)
  {
    OrderGroupsSpec(m, Categories);
    FilterSpec(Categories, (c: string) => c in m);
  }

  /** `Object.values(ordered).reduce((s, a) => s + a.length, 0)`. */
  function TotalMediums(ordered: seq<(string, seq<string>)>): nat
  {
    if ordered == [] then 0 else TotalMediums(ordered[..|ordered| - 1]) + |ordered[|ordered| - 1].1|
  }

  /** One pass of the row loop (lines 84-138): what the row adds, if anything. */
  method ReadRow(r: Line, describe: string -> Option<string>) returns (e: Option<(string, string)>)
    ensures e == RowEntry(r, describe)
  {
    if !CellTruthy(Column(r, 0)) || !CellTruthy(Column(r, 1)) {
      return None;
    }
    var category := Trim(CellText(Column(r, 0)));
    if ToLower(category) == "3-d" {
      category := "3-D";
    }
    if "Musical" <= category {
      category := "Musical";
    }
    var medium := ProcessMedium(CellText(Column(r, 1)), describe);
    if medium == "" {
      return None;
    }
    return Some((category, medium));
  }

  /** Lines 83-139: the `mediums` dictionary built from the rows under the header. */
  method GroupMediums(body: seq<Line>, describe: string -> Option<string>) returns (mediums: Groups)
    ensures mediums == Collect(Entries(body, describe))
  {
    mediums := map[];
    ghost var es := Entries(body, describe);
    for i := 0 to |body|
      invariant mediums == Collect(es[..i])
    {
      CollectSnoc(es, i);
      var e := ReadRow(body[i], describe);
      if e.Some? {
        var category := e.value.0;
        var medium := e.value.1;
        var list := if category in mediums then mediums[category] else [];
        if medium !in list {
          mediums := mediums[category := list + [medium]];
        }
      }
    }
    assert es[..|body|] == es;
  }

  /** Lines 80-150: group the rows' mediums, then order the categories, sort each list and count. */
  method ImportMediums(rows: seq<Line>, describe: string -> Option<string>) returns (ordered: seq<(string, seq<string>)>, total: nat)
    ensures WellGrouped(Collect(Entries(Body(rows), describe)))
    ensures ordered == OrderGroups(Collect(Entries(Body(rows), describe)), Categories)
    ensures total == TotalMediums(ordered)
  {
    var mediums := GroupMediums(Body(rows), describe);
    CollectWellGrouped(Entries(Body(rows), describe));
    ordered := [];
    for k := 0 to |Categories|
      invariant ordered == OrderGroups(mediums, Categories[..k])
    {
      assert Categories[..k + 1][..k] == Categories[..k];
      var cat := Categories[k];
      if cat in mediums {
        ordered := ordered + [(cat, SortedList(mediums[cat]))];
      }
    }
    assert Categories[..|Categories|] == Categories;
    total := 0;
    for k := 0 to |ordered|
      invariant total == TotalMediums(ordered[..k])
    {
      assert ordered[..k + 1][..k] == ordered[..k];
      total := total + |ordered[k].1|;
    }
    assert ordered[..|ordered|] == ordered;
  }
}
