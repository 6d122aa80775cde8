/**
 * The main blueprint's helpers: the JSON-file fallback, the image upload
 * checks and file-name sanitiser, and adding a discourse to the content
 * file (paragraph conversion and prepending). Reading and writing files,
 * the image conversion and the clock are parameters.
 */
module ContentRoutes {
  import opened Wrappers
  import opened Text
  import opened Seqs

  // ---------------------------------------------------------------------
  // load_json_data
  // ---------------------------------------------------------------------

  datatype Loaded<J> = Parsed(value: J) | EmptyList | EmptyDict

  /** What `load_json_data` returns for `filename`, given the parsed file
      content, or None when the file is missing or is not valid JSON. */
  function LoadJsonData<J>(filename: string, parsed: Option<J>): (r: Loaded<J>)
    ensures parsed.Some? ==> r == Parsed(parsed.value)
    ensures parsed.None? ==> (r == EmptyList <==> Contains(filename, "json")) && (r.EmptyDict? <==> !Contains(filename, "json"))
  {
    if parsed.Some? then Parsed(parsed.value)
    else
      JsonImpliesS(filename);
      if Contains(filename, "json") && Contains(filename, "s") then EmptyList else EmptyDict
  }

  /** "json" holds an 's', so the second test of the fallback never
      decides anything: a name with "json" in it always has an 's'. */
  lemma JsonImpliesS(filename: string)
    ensures Contains(filename, "json") ==> Contains(filename, "s")
  {
    if Contains(filename, "json") {
      ContainsChar(filename, "json", 1);
      assert ["json"[1]] == "s";
    }
  }

  // ---------------------------------------------------------------------
  // upload_image
  // ---------------------------------------------------------------------

  /** `c.isalnum() or c in ('-', '_')`, with `isalnum` as a parameter. */
  function AllowedChar(isAlnum: char -> bool): char -> bool {
    c => isAlnum(c) || c == '-' || c == '_'
  }

  /** The sanitised upload name: the allowed characters, in order, with
      trailing whitespace stripped. */
  function SafeFilename(name: string, isAlnum: char -> bool): (r: string)
    ensures forall i :: 0 <= i < |r| ==> AllowedChar(isAlnum)(r[i])
    ensures Subsequence(r, name)
    ensures forall c :: !IsSpace(c) ==>
      multiset(r)[c] == if AllowedChar(isAlnum)(c) then multiset(name)[c] else 0
  {
    var kept := Keep(name, AllowedChar(isAlnum));
    KeptAllowed(name, AllowedChar(isAlnum));
    KeptCounts(name, AllowedChar(isAlnum));
    KeepSubsequence(name, AllowedChar(isAlnum));
    PrefixSubsequence(RStrip(kept), kept, name);
    RStrip(kept)
  }

  /** Stripping trailing whitespace keeps every other character as often
      as it occurs. */
  lemma RStripCounts(s: string, c: char)
    requires !IsSpace(c)
    ensures multiset(RStrip(s))[c] == multiset(s)[c]
  {
    var r := RStrip(s);
    var tail := s[|r|..];
    assert s == r + tail;
    assert c !in tail;
    assert multiset(s) == multiset(r) + multiset(tail);
  }

  /** Every non-whitespace character is kept, after the strip, exactly as
      often as the filter keeps it. */
  lemma KeptCounts(name: string, p: char -> bool)
    ensures forall c :: !IsSpace(c) ==>
      multiset(RStrip(Keep(name, p)))[c] == if p(c) then multiset(name)[c] else 0
  {
    forall c | !IsSpace(c)
      ensures multiset(RStrip(Keep(name, p)))[c] == if p(c) then multiset(name)[c] else 0
    {
      RStripCounts(Keep(name, p), c);
      KeepCount(name, p, c);
    }
  }

  lemma KeptAllowed(s: string, p: char -> bool)
    ensures forall i :: 0 <= i < |Keep(s, p)| ==> p(Keep(s, p)[i])
  {
    forall i | 0 <= i < |Keep(s, p)| ensures p(Keep(s, p)[i]) {
      KeepMember(s, p, Keep(s, p)[i]);
    }
  }

  /** A prefix of a subsequence is a subsequence. */
  lemma {:induction false} PrefixSubsequence<T>(a: seq<T>, b: seq<T>, c: seq<T>)
    requires |a| <= |b| && a == b[..|a|] && Subsequence(b, c)
    ensures Subsequence(a, c)
    decreases |b| - |a|
  {
    if |a| < |b| {
      SubsequenceDropLast(b, c);
      assert a == b[..|b| - 1][..|a|];
      PrefixSubsequence(a, b[..|b| - 1], c);
    } else {
      assert a == b;
    }
  }

  /** Keeping from a sequence whose elements all pass changes nothing. */
  lemma {:induction false} KeepAll<T>(s: seq<T>, p: T -> bool)
    requires forall i :: 0 <= i < |s| ==> p(s[i])
    ensures Keep(s, p) == s
    decreases |s|
  {
    if s != [] {
      KeepAll(s[..|s| - 1], p);
    }
  }

  /** Stripping trailing whitespace twice strips nothing more. */
  lemma RStripIdempotent(s: string)
    ensures RStrip(RStrip(s)) == RStrip(s)
  {
  }

  /** Sanitising a sanitised name changes nothing. */
  lemma SafeFilenameIdempotent(name: string, isAlnum: char -> bool)
    ensures SafeFilename(SafeFilename(name, isAlnum), isAlnum) == SafeFilename(name, isAlnum)
  {
    var r := SafeFilename(name, isAlnum);
    KeepAll(r, AllowedChar(isAlnum));
    RStripIdempotent(Keep(name, AllowedChar(isAlnum)));
  }

  /** When no whitespace character counts as alphanumeric, as in Python,
      the final `rstrip` removes nothing. */
  lemma SafeFilenameNoStrip(name: string, isAlnum: char -> bool)
    requires forall c :: IsSpace(c) ==> !isAlnum(c)
    ensures SafeFilename(name, isAlnum) == Keep(name, AllowedChar(isAlnum))
  {
    var kept := Keep(name, AllowedChar(isAlnum));
    KeptAllowed(name, AllowedChar(isAlnum));
    if kept != [] {
      assert AllowedChar(isAlnum)(kept[|kept| - 1]);
      assert !IsSpace(kept[|kept| - 1]);
    }
  }

  /** An uploaded file part; `filename` is the name sent by the browser. */
  datatype FilePart = FilePart(filename: string)

  datatype UploadReply =
    | UploadRejected(status: int, message: string)
    | UploadFailed(status: int, message: string)
    | UploadSaved(webpName: string, message: string)

  /** The request carries a selected file and a non-empty target name. */
  predicate UploadNamed(files: map<string, FilePart>, form: map<string, string>) {
    "image_file" in files && files["image_file"].filename != "" && "filename" in form && form["filename"] != ""
  }

  /** `upload_image`: `files` and `form` are the request's parts and form
      fields; `saveError` is the message of the exception raised while
      converting and saving the image, if any. */
  function UploadImage(files: map<string, FilePart>, form: map<string, string>,
                       isAlnum: char -> bool, saveError: Option<string>): (r: UploadReply)
    ensures "image_file" !in files ==> r == UploadRejected(400, "No file part")
    ensures "image_file" in files && files["image_file"].filename == "" ==>
      r == UploadRejected(400, "No selected file")
    ensures ("image_file" in files && files["image_file"].filename != "" &&
             ("filename" !in form || form["filename"] == "")) ==>
      r == UploadRejected(400, "Filename is required")
    ensures UploadNamed(files, form) && SafeFilename(form["filename"], isAlnum) == "" ==>
      r == UploadRejected(400, "Invalid filename provided")
    ensures UploadNamed(files, form) && SafeFilename(form["filename"], isAlnum) != "" && saveError.Some? ==>
      r == UploadFailed(500, saveError.value)
    ensures UploadNamed(files, form) && SafeFilename(form["filename"], isAlnum) != "" && saveError.None? ==>
      var webp := SafeFilename(form["filename"], isAlnum) + ".webp";
      r == UploadSaved(webp, "Image uploaded and saved as " + webp)
    ensures r.UploadSaved? <==> UploadNamed(files, form) && SafeFilename(form["filename"], isAlnum) != "" && saveError.None?
  {
    if "image_file" !in files then UploadRejected(400, "No file part")
    else if files["image_file"].filename == "" then UploadRejected(400, "No selected file")
    else if "filename" !in form || form["filename"] == "" then UploadRejected(400, "Filename is required")
    else
      var safe := SafeFilename(form["filename"], isAlnum);
      if safe == "" then UploadRejected(400, "Invalid filename provided")
      else
        var webp := safe + ".webp";
        if saveError.Some? then UploadFailed(500, saveError.value)
        else UploadSaved(webp, "Image uploaded and saved as " + webp)
  }

  // ---------------------------------------------------------------------
  // add_discourse
  // ---------------------------------------------------------------------

  const ParagraphBreak: string := "</p><p>"

  /** One paragraph. */
  function Para(text: string): string {
    "<p>" + text + "</p>"
  }

  /** The stored body: every newline becomes a paragraph break and the
      whole text is wrapped in one paragraph. */
  function ParagraphBody(text: string): string {
    Para(Replace(text, "\n", ParagraphBreak))
  }

  /** One paragraph per line, as an independent reading of the body. */
  function Paragraphs(lines: seq<string>): string
    decreases |lines|
  {
    if lines == [] then "" else Para(lines[0]) + Paragraphs(lines[1..])
  }

  /** A break inside a paragraph closes it and opens the next. */
  lemma ParaBreak(a: string, b: string)
    ensures Para(a + ParagraphBreak + b) == Para(a) + Para(b)
  {
    assert ParagraphBreak == "</p>" + "<p>";
  }

  /** Lines joined by paragraph breaks and wrapped give one paragraph each. */
  lemma {:induction false} ParaOfJoin(lines: seq<string>)
    requires |lines| >= 1
    ensures Para(Join(lines, ParagraphBreak)) == Paragraphs(lines)
    decreases |lines|
  {
    if |lines| == 1 {
      assert Paragraphs(lines) == Para(lines[0]) + Paragraphs([]);
    } else {
      ParaOfJoin(lines[1..]);
      ParaBreak(lines[0], Join(lines[1..], ParagraphBreak));
    }
  }

  /** The body holds exactly one paragraph per line of the text. */
  lemma ParagraphBodyLines(text: string)
    ensures ParagraphBody(text) == Paragraphs(SplitOn(text, '\n'))
  {
    assert "\n" == ['\n'];
    ReplaceIsJoin(text, '\n', ParagraphBreak);
    ParaOfJoin(SplitOn(text, '\n'));
  }

  /** A one-line text gives a single paragraph. */
  lemma ParagraphBodySingleLine(text: string)
    requires '\n' !in text
    ensures ParagraphBody(text) == "<p>" + text + "</p>"
  {
    ParagraphBodyLines(text);
    SplitNoSeparator(text, '\n');
    assert Paragraphs([text]) == Para(text) + Paragraphs([]);
  }

  /** An entry of `content.json`: one the route added, or any other. */
  datatype ContentItem =
    | Discourse(id: string, reference: string, datePosted: string, title: string,
                body: string, resources: seq<string>)
    | OtherItem(raw: string)

  datatype ContentReply = ContentSaved(message: string) | ContentRejected(status: int, message: string)
                        | ContentFault(status: int)

  /** The discourse built from a request; `stamp`, `referenceStamp` and
      `dateText` are the clock readings formatted as the source does. */
  function NewDiscourse(title: string, bodyText: string, stamp: int,
                        referenceStamp: string, dateText: string): (d: ContentItem)
    ensures d.Discourse? && d.title == title && d.resources == []
    ensures d.body == ParagraphBody(bodyText) && StartsWith(d.id, "disc-")
    ensures d.id == "disc-" + IntToString(stamp) && d.reference == "DISC-" + referenceStamp
    ensures d.datePosted == dateText
  {
    StartsWithConcat("disc-", IntToString(stamp));
    Discourse("disc-" + IntToString(stamp), "DISC-" + referenceStamp, dateText, title,
              ParagraphBody(bodyText), [])
  }

  /** Discourses created at different whole seconds get different ids. */
  lemma NewDiscourseIdsDiffer(t1: string, b1: string, s1: int, r1: string, d1: string,
                              t2: string, b2: string, s2: int, r2: string, d2: string)
    requires s1 != s2
    ensures NewDiscourse(t1, b1, s1, r1, d1).id != NewDiscourse(t2, b2, s2, r2, d2).id
  {
    if NewDiscourse(t1, b1, s1, r1, d1).id == NewDiscourse(t2, b2, s2, r2, d2).id {
      assert IntToString(s1) == ("disc-" + IntToString(s1))[5..];
      assert IntToString(s2) == ("disc-" + IntToString(s2))[5..];
      IntToStringInjective(s1, s2);
    }
  }

  /** `content.json` as the list it holds; None when it cannot be read
      as a list. */
  class ContentFile {
    var items: Option<seq<ContentItem>>

    constructor (initial: Option<seq<ContentItem>>)
      ensures items == initial
    {
      items := initial;
    }

    /** `add_discourse`: `data` is the request's JSON object (None when the
        body is not JSON). Title and body are checked before the file is
        touched; the new discourse goes first, the old entries follow in
        their order. Any failure leaves the file as it was. */
    method AddDiscourse(data: Option<map<string, string>>, stamp: int,
                        referenceStamp: string, dateText: string) returns (reply: ContentReply)
      modifies this
      ensures data.None? ==> reply == ContentFault(500) && items == old(items)
      ensures data.Some? ==>
        var title := if "title" in data.value then data.value["title"] else "";
        var body := if "body" in data.value then data.value["body"] else "";
        if title == "" || body == "" then
          reply == ContentRejected(400, "Title and Body are required") && items == old(items)
        else if old(items).None? then
          reply == ContentFault(500) && items == old(items)
        else
          && reply == ContentSaved("Discourse added successfully. Please refresh.")
          && items == Some([NewDiscourse(title, body, stamp, referenceStamp, dateText)] + old(items).value)
    {
      if data.None? {
        return ContentFault(500);
      }
      var title := if "title" in data.value then data.value["title"] else "";
      var body := if "body" in data.value then data.value["body"] else "";
      if title == "" || body == "" {
        return ContentRejected(400, "Title and Body are required");
      }
      var newDiscourse := NewDiscourse(title, body, stamp, referenceStamp, dateText);
      if items.None? {
        return ContentFault(500);
      }
      items := Some([newDiscourse] + items.value);
      reply := ContentSaved("Discourse added successfully. Please refresh.");
    }
  }
}
