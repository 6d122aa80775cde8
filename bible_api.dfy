/**
 * The Bible blueprint's own logic: closing the per-request translation
 * connections at teardown, listing the translations found on disk, and
 * shaping the answer of the search endpoint (status choice and the display
 * reference). The reference-query parser and the database query it calls
 * are not part of this model; they are parameters of the search.
 */
module BibleApi {
  import opened Wrappers
  import opened Text
  import opened Seqs

  const BibleDbPrefix: string := "bible_db_"
  const DefaultVersion: string := "kjv"

  // ---------------------------------------------------------------------
  // teardown_bible_dbs
  // ---------------------------------------------------------------------

  /** The value of one attribute of the request-global object `g`. */
  datatype Slot = NullSlot | Connection(handle: nat) | Plain(tag: string)

  /** The attributes teardown leaves: all whose name lacks the prefix. */
  function WithoutBibleDbs(slots: map<string, Slot>): (r: map<string, Slot>)
    ensures forall k :: k in r <==> k in slots && !StartsWith(k, BibleDbPrefix)
    ensures forall k :: k in r ==> r[k] == slots[k]
  {
    map k | k in slots && !StartsWith(k, BibleDbPrefix) :: slots[k]
  }

  /** The attributes whose values teardown closes: prefixed and not None. */
  function ClosedBy(slots: map<string, Slot>): set<string> {
    set k | k in slots && StartsWith(k, BibleDbPrefix) && slots[k] != NullSlot
  }

  /** A second teardown finds nothing left to remove or close. */
  lemma TeardownIdempotent(slots: map<string, Slot>)
    ensures WithoutBibleDbs(WithoutBibleDbs(slots)) == WithoutBibleDbs(slots)
    ensures ClosedBy(WithoutBibleDbs(slots)) == {}
  {
  }

  /** Flask's request-global object `g`, as its attribute dictionary. */
  class RequestGlobals {
    var slots: map<string, Slot>

    constructor (initial: map<string, Slot>)
      ensures slots == initial
    {
      slots := initial;
    }

    /** `teardown_bible_dbs`: pops every attribute named "bible_db_..." and
        closes the popped values that are not None; `closed` names them. */
    method TeardownBibleDbs() returns (closed: set<string>)
      modifies this
      ensures slots == WithoutBibleDbs(old(slots))
      ensures closed == ClosedBy(old(slots))
    {
      var keys := slots.Keys;
      closed := {};
      ghost var done: set<string> := {};
      while keys != {}
        invariant keys !! done && keys + done == old(slots).Keys
        invariant slots == map k | k in old(slots) && !(k in done && StartsWith(k, BibleDbPrefix)) :: old(slots)[k]
        invariant closed == set k | k in done && StartsWith(k, BibleDbPrefix) && old(slots)[k] != NullSlot
        decreases keys
      {
        var key :| key in keys;
        keys, done := keys - {key}, done + {key};
        if StartsWith(key, BibleDbPrefix) {
          var db := if key in slots then slots[key] else NullSlot;
          slots := map k | k in slots && k != key :: slots[k];
          if db != NullSlot {
            closed := closed + {key};
          }
        }
      }
    }
  }

  // ---------------------------------------------------------------------
  // get_translations
  // ---------------------------------------------------------------------

  datatype Translation = Translation(abbreviation: string, name: string)

  datatype TranslationsReply =
    | Listed(items: seq<Translation>)
    | DirectoryMissing(status: int, message: string)

  predicate IsDbFile(f: string) {
    EndsWith(f, ".db")
  }

  /** The entry for one database file: `f.replace('.db', '')` as the
      abbreviation, its configured name or else the abbreviation. */
  function TranslationFor(f: string, names: map<string, string>): (t: Translation)
    ensures t.abbreviation == Replace(f, ".db", "")
    ensures t.name == if t.abbreviation in names then names[t.abbreviation] else t.abbreviation
  {
    var abbr := Replace(f, ".db", "");
    Translation(abbr, if abbr in names then names[abbr] else abbr)
  }

  /** The translation list for a directory listing: one entry per file
      ending in ".db", in listing order. */
  function TranslationsOf(files: seq<string>, names: map<string, string>): (r: seq<Translation>)
    ensures |r| == |Keep(files, IsDbFile)|
    ensures forall i :: 0 <= i < |r| ==> r[i] == TranslationFor(Keep(files, IsDbFile)[i], names)
  {
    var dbs := Keep(files, IsDbFile);
    seq(|dbs|, i requires 0 <= i < |dbs| => TranslationFor(dbs[i], names))
  }

  /** Every file named "STEM.db" with no other ".db" in it is listed
      under the abbreviation STEM. */
  lemma TranslationListed(files: seq<string>, names: map<string, string>, stem: string)
    requires !Contains(stem, ".db") && stem + ".db" in files
    ensures exists t :: t in TranslationsOf(files, names) && t.abbreviation == stem
  {
    var dbs := Keep(files, IsDbFile);
    var ts := TranslationsOf(files, names);
    EndsWithConcat(stem, ".db");
    KeepMember(files, IsDbFile, stem + ".db");
    var i :| 0 <= i < |dbs| && dbs[i] == stem + ".db";
    ReplaceDbSuffix(stem);
    assert ts[i].abbreviation == stem;
    assert ts[i] in ts;
  }

  /** `t` is the entry of some ".db" file of the listing. */
  ghost predicate FromDbFile(files: seq<string>, names: map<string, string>, t: Translation) {
    exists f :: f in files && IsDbFile(f) && t == TranslationFor(f, names)
  }

  /** Every entry comes from a file of the listing that ends in ".db". */
  lemma TranslationsFromDbFiles(files: seq<string>, names: map<string, string>)
    ensures forall t :: t in TranslationsOf(files, names) ==> FromDbFile(files, names, t)
  {
    var dbs := Keep(files, IsDbFile);
    var ts := TranslationsOf(files, names);
    forall t | t in ts ensures FromDbFile(files, names, t) {
      var i :| 0 <= i < |ts| && ts[i] == t;
      assert dbs[i] in dbs;
      KeepMember(files, IsDbFile, dbs[i]);
      assert t == TranslationFor(dbs[i], names);
    }
  }

  /** The number of entries is the number of ".db" files. */
  lemma TranslationsOfCount(files: seq<string>, names: map<string, string>)
    ensures |TranslationsOf(files, names)| == |Keep(files, IsDbFile)| <= |files|
  {
    KeepLength(files, IsDbFile);
  }

  /** `get_translations`: `files` is the directory listing, None when the
      directory does not exist. */
  method GetTranslations(files: Option<seq<string>>, names: map<string, string>)
    returns (reply: TranslationsReply)
    ensures files.None? ==> reply == DirectoryMissing(500, "Bible data directory not found.")
    ensures files.Some? ==> reply == Listed(TranslationsOf(files.value, names))
  {
    if files.None? {
      return DirectoryMissing(500, "Bible data directory not found.");
    }
    var fs := files.value;
    var translations: seq<Translation> := [];
    var i := 0;
    while i < |fs|
      invariant 0 <= i <= |fs|
      invariant translations == TranslationsOf(fs[..i], names)
    {
      var f := fs[i];
      assert fs[..i + 1][..i] == fs[..i];
      if IsDbFile(f) {
        translations := translations + [TranslationFor(f, names)];
      }
      i := i + 1;
    }
    assert fs[..i] == fs;
    return Listed(translations);
  }

  // ---------------------------------------------------------------------
  // intelligent_search
  // ---------------------------------------------------------------------

  /** What the (external) query parser returns. Numbers come from `\d+`
      matches, so they are never negative. */
  datatype SearchObject = SearchObject(kind: string, book: string, chapter: Option<nat>,
                                       verseStart: Option<nat>, verseEnd: Option<nat>)

  datatype Verse = Verse(book: string, chapter: int, verse: int, text: string)

  /** What the (external) database query returns: rows and an error. */
  datatype DbAnswer = DbAnswer(rows: seq<Verse>, error: Option<string>)

  datatype SearchResponse =
    | SearchError(status: int, message: string)
    | SearchFound(abbreviation: string, name: string, searchType: string,
                  verses: seq<Verse>, reference: string)

  predicate NatTruthy(o: Option<nat>) {
    o.Some? && o.value != 0
  }

  /** A number as the reference shows it: only when truthy. */
  function Shown(o: Option<nat>): Option<nat> {
    if NatTruthy(o) then o else None
  }

  /** The number of leading decimal digits of `s`. */
  function LeadingDigits(s: string): (n: nat)
    ensures n <= |s| && AllDigits(s[..n])
    decreases |s|
  {
    if s != [] && IsDigit(s[0]) then
      var n := 1 + LeadingDigits(s[1..]);
      assert s[..n] == [s[0]] + s[1..][..n - 1];
      n
    else 0
  }

  /** Reads a number at the start of `s`, returning what follows it. */
  function ReadNumber(s: string): (Option<nat>, string) {
    var n := LeadingDigits(s);
    if n == 0 then (None, s) else (Some(DigitsValue(s[..n])), s[n..])
  }

  /** Reads an optional number introduced by the character `sep`. */
  function ReadPart(t: string, sep: char): (Option<nat>, string) {
    if t != [] && t[0] == sep then ReadNumber(t[1..]) else (None, t)
  }

  /** Reads back the part of a display reference after the book:
      optional " CHAPTER", optional ":VERSE", optional "-VERSE". */
  function ReadTail(t: string): (Option<nat>, Option<nat>, Option<nat>) {
    var (c, r1) := ReadPart(t, ' ');
    var (vs, r2) := ReadPart(r1, ':');
    var (ve, _) := ReadPart(r2, '-');
    (c, vs, ve)
  }

  lemma {:induction false} LeadingDigitsOf(d: string, rest: string)
    requires AllDigits(d) && (rest == [] || !IsDigit(rest[0]))
    ensures LeadingDigits(d + rest) == |d|
    decreases |d|
  {
    if d != [] {
      assert (d + rest)[1..] == d[1..] + rest;
      LeadingDigitsOf(d[1..], rest);
    } else {
      assert d + rest == rest;
    }
  }

  /** A number printed by `str` in front of a non-digit is read back. */
  lemma ReadNumberOf(n: nat, rest: string)
    requires rest == [] || !IsDigit(rest[0])
    ensures ReadNumber(NatToString(n) + rest) == (Some(n), rest)
  {
    var d := NatToString(n);
    NatToStringRoundTrip(n);
    LeadingDigitsOf(d, rest);
    assert (d + rest)[..|d|] == d;
    assert (d + rest)[|d|..] == rest;
  }

  /** A separator followed by a printed number, as `f" {n}"` gives it. */
  function Piece(sep: char, n: nat): string {
    [sep] + NatToString(n)
  }

  /** `ref += ...` in the order of the source: the book, " CHAPTER" if the
      chapter is truthy, ":VERSE" if the start verse is truthy and then
      "-VERSE" if the end verse is truthy too. Reading the text after the
      book gives back exactly the numbers that are shown. */
  method BuildReference(obj: SearchObject) returns (ref: string)
    ensures StartsWith(ref, obj.book)
    ensures ReadTail(ref[|obj.book|..]) ==
      (Shown(obj.chapter), Shown(obj.verseStart),
       if NatTruthy(obj.verseStart) then Shown(obj.verseEnd) else None)
    ensures !NatTruthy(obj.chapter) && !NatTruthy(obj.verseStart) ==> ref == obj.book
    ensures ref == ReferenceText(obj)
  {
    ref := obj.book;
    var chapterPart, versePart, endPart := "", "", "";
    if NatTruthy(obj.chapter) {
      chapterPart := Piece(' ', obj.chapter.value);
      ref := ref + chapterPart;
    }
    if NatTruthy(obj.verseStart) {
      versePart := Piece(':', obj.verseStart.value);
      ref := ref + versePart;
      if NatTruthy(obj.verseEnd) {
        endPart := Piece('-', obj.verseEnd.value);
        ref := ref + endPart;
      }
    }
    assert ref == obj.book + chapterPart + versePart + endPart;
    AppendParts(obj.book, chapterPart, versePart, endPart);
    ReadTailOf(obj, chapterPart, versePart, endPart);
    assert ref[|obj.book|..] == chapterPart + versePart + endPart;
  }

  /** The book followed by three parts starts with the book, and what
      follows the book is the three parts. */
  lemma AppendParts(book: string, x: string, y: string, z: string)
    ensures StartsWith(book + x + y + z, book)
    ensures (book + x + y + z)[|book|..] == x + y + z
  {
    assert book + x + y + z == book + (x + y + z);
    StartsWithConcat(book, x + y + z);
  }

  /** The display reference: the book, then each part that is shown. */
  function ReferenceText(obj: SearchObject): string {
    obj.book + PartText(' ', obj.chapter) + PartText(':', obj.verseStart)
      + (if NatTruthy(obj.verseStart) then PartText('-', obj.verseEnd) else "")
  }

  /** A separator and a printed number in front of a non-digit. */
  lemma ReadPartOf(sep: char, n: nat, rest: string)
    requires rest == [] || !IsDigit(rest[0])
    ensures ReadPart([sep] + NatToString(n) + rest, sep) == (Some(n), rest)
  {
    assert ([sep] + NatToString(n) + rest)[1..] == NatToString(n) + rest;
    ReadNumberOf(n, rest);
  }

  /** The text a reference shows for an optional number. */
  function PartText(sep: char, o: Option<nat>): string {
    if NatTruthy(o) then Piece(sep, o.value) else ""
  }

  lemma ReadPartText(sep: char, o: Option<nat>, rest: string)
    requires rest == [] || (!IsDigit(rest[0]) && rest[0] != sep)
    ensures ReadPart(PartText(sep, o) + rest, sep) == (Shown(o), rest)
  {
    if NatTruthy(o) {
      ReadPartOf(sep, o.value, rest);
    } else {
      assert PartText(sep, o) + rest == rest;
    }
  }

  lemma ReadTailOf(obj: SearchObject, chapterPart: string, versePart: string, endPart: string)
    requires chapterPart == PartText(' ', obj.chapter)
    requires versePart == PartText(':', obj.verseStart)
    requires endPart == if NatTruthy(obj.verseStart) then PartText('-', obj.verseEnd) else ""
    ensures ReadTail(chapterPart + versePart + endPart) ==
      (Shown(obj.chapter), Shown(obj.verseStart),
       if NatTruthy(obj.verseStart) then Shown(obj.verseEnd) else None)
  {
    var r1 := versePart + endPart;
    assert chapterPart + versePart + endPart == chapterPart + r1;
    ReadPartText('-', if NatTruthy(obj.verseStart) then obj.verseEnd else None, []);
    assert endPart + [] == endPart;
    ReadPartText(':', obj.verseStart, endPart);
    ReadPartText(' ', obj.chapter, r1);
  }

  /** The reference shown for a free-text search. */
  function TextReference(query: string): string {
    "Text search for \"" + query + "\""
  }

  /** `intelligent_search` with query argument `q`, translation argument
      `t`, the configured names, and the parser and database query as
      parameters. An empty query is refused before anything is parsed;
      a database error wins over an empty result. */
  method IntelligentSearch(q: Option<string>, t: Option<string>, names: map<string, string>,
                           parse: string -> SearchObject,
                           fetch: (string, SearchObject) -> DbAnswer)
    returns (resp: SearchResponse)
    ensures var query := Strip(q.GetOr(""));
      var version := Lower(t.GetOr(DefaultVersion));
      if query == "" then resp == SearchError(400, "A search query is required.")
      else
        var obj := parse(query);
        var answer := fetch(version, obj);
        if StrTruthy(answer.error) then resp == SearchError(500, answer.error.value)
        else if answer.rows == [] then resp == SearchError(404, "No results found for your query.")
        else
          && resp.SearchFound?
          && resp.abbreviation == Upper(version)
          && resp.name == (if Upper(version) in names then names[Upper(version)] else Upper(version))
          && resp.searchType == obj.kind
          && resp.verses == answer.rows
          && (obj.kind == "text" ==> resp.reference == TextReference(query))
          && (obj.kind != "text" ==>
                resp.reference == ReferenceText(obj)
                && StartsWith(resp.reference, obj.book)
                && ReadTail(resp.reference[|obj.book|..]) ==
                   (Shown(obj.chapter), Shown(obj.verseStart),
                    if NatTruthy(obj.verseStart) then Shown(obj.verseEnd) else None))
  {
    var query := Strip(q.GetOr(""));
    var version := Lower(t.GetOr(DefaultVersion));
    if query == "" {
      return SearchError(400, "A search query is required.");
    }
    var obj := parse(query);
    var answer := fetch(version, obj);
    if StrTruthy(answer.error) {
      return SearchError(500, answer.error.value);
    }
    if answer.rows == [] {
      return SearchError(404, "No results found for your query.");
    }
    var abbr := Upper(version);
    var name := if abbr in names then names[abbr] else abbr;
    var reference;
    if obj.kind != "text" {
      reference := BuildReference(obj);
    } else {
      reference := TextReference(query);
    }
    resp := SearchFound(abbr, name, obj.kind, answer.rows, reference);
  }
}
