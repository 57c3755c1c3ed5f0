/**
 * `process_file_upload`: saves the upload under the temporary directory and
 * returns the code to test with the saved path, or raises `ValueError`.
 *
 * A declared zip is read member by member in `namelist()` order; members
 * whose names end in one of the code suffixes are decoded and collected, a
 * member whose read fails is skipped, and the collected contents are joined
 * with a separator that names the LAST entry of `namelist()` (the loop
 * variable as it stands after the loop), so the first file gets no header.
 *
 * Zip parsing and UTF-8 decoding are given: an `Upload` carries the validity
 * flag, the member list with each member's decoded text (or the fact that
 * reading it failed) and the decoded text of the saved file.
 */
module FileProcessor {
  import opened Wrappers
  import opened PyStr
  import PyPath

  /** The member-name suffixes collected from a zip. */
  const CodeSuffixes: seq<string> := [".py", ".js", ".java", ".ts", ".cs", ".go", ".rb"]

  const InvalidZipMessage: string := "Uploaded file was marked as zip but is not a valid zip archive."
  const UnknownTypeLead: string := "Unknown upload type: "

  /** What reading one zip member gives: its decoded text, or an exception. */
  datatype Contents = Decoded(text: string) | Unreadable

  /** One entry of `namelist()`, with what reading it gives. */
  datatype Member = Member(name: string, contents: Contents)

  /**
   * The uploaded file as saved: its client-side name, whether it is a valid
   * zip, its zip members in `namelist()` order, and its whole content decoded
   * as UTF-8 with invalid bytes dropped, before any newline translation (the
   * `single` branch reads it in text mode, see `UniversalNewlines`; zip
   * members are decoded with `bytes.decode`, which keeps `\r`).
   */
  datatype Upload = Upload(filename: string, isZipFile: bool, namelist: seq<Member>, text: string)

  /**
   * The outcome: the code with the saved path, or a `ValueError` raised after
   * the saved file at `path` was removed.
   */
  datatype Extraction =
    | Extracted(code: string, path: string)
    | ValueError(message: string, path: string)

  /**
   * Reading in text mode with universal newlines: `\r\n` and a lone `\r`
   * both read as `\n`.
   */
  function UniversalNewlines(s: string): (r: string)
    ensures '\r' !in r
    ensures |r| <= |s|
    decreases |s|
  {
    if s == [] then []
    else if s[0] == '\r' then "\n" + UniversalNewlines(if |s| > 1 && s[1] == '\n' then s[2..] else s[1..])
    else [s[0]] + UniversalNewlines(s[1..])
  }

  /** The suffix filter of the zip branch. */
  predicate IsCodeMember(name: string) {
    EndsWithAny(name, CodeSuffixes)
  }

  /** A member whose content ends up in the collected list. */
  predicate Collects(m: Member) {
    IsCodeMember(m.name) && m.contents.Decoded?
  }

  /** The contents the loop collects, in `namelist()` order. */
  function Collected(members: seq<Member>): (r: seq<string>)
    ensures |r| <= |members|
    decreases |members|
  {
    if members == [] then []
    else
      var init := Collected(members[..|members| - 1]);
      var m := members[|members| - 1];
      if Collects(m) then init + [m.contents.text] else init
  }

  /** The separator placed between collected contents. */
  function Separator(memberName: string): string {
    "\n\n--- Next File: " + memberName + " ---\n\n"
  }

  /** The zip branch's result: `""`, or the contents joined with the last listed name's separator. */
  function ZipCode(members: seq<Member>): (r: string)
    ensures Collected(members) == [] ==> r == ""
  {
    var contents := Collected(members);
    if contents == [] then "" else Join(Separator(members[|members| - 1].name), contents)
  }

  /** `process_file_upload(uploaded_file_obj, upload_type, temp_dir)`. */
  function ProcessUpload(upload: Upload, uploadType: string, tempDir: string): (r: Extraction)
    ensures r.path == PyPath.Join(tempDir, upload.filename)
    ensures r.ValueError? <==> uploadType != "single" && (uploadType != "zip" || !upload.isZipFile)
    ensures r.Extracted? ==>
      r.code == (if uploadType == "zip" then ZipCode(upload.namelist) else UniversalNewlines(upload.text))
    ensures r.ValueError? ==>
      r.message == (if uploadType == "zip" then InvalidZipMessage else UnknownTypeLead + uploadType)
  {
    var filePath := PyPath.Join(tempDir, upload.filename);
    if uploadType == "zip" then
      if upload.isZipFile then Extracted(ZipCode(upload.namelist), filePath)
      else ValueError(InvalidZipMessage, filePath)
    else if uploadType == "single" then Extracted(UniversalNewlines(upload.text), filePath)
    else ValueError(UnknownTypeLead + uploadType, filePath)
  }

  // ---------------------------------------------------------------------------
  // The imperative zip loop and the whole operation

  /**
   * The loop over `namelist()`: appends each readable code member's text and
   * leaves the loop variable holding the last listed name.
   */
  method CollectCode(namelist: seq<Member>) returns (allCodeContent: seq<string>, memberName: Option<string>)
    ensures allCodeContent == Collected(namelist)
    ensures memberName == (if namelist == [] then None else Some(namelist[|namelist| - 1].name))
  {
    allCodeContent := [];
    memberName := None;
    var i := 0;
    while i < |namelist|
      invariant 0 <= i <= |namelist|
      invariant allCodeContent == Collected(namelist[..i])
      invariant memberName == (if i == 0 then None else Some(namelist[i - 1].name))
    {
      assert namelist[..i + 1][..i] == namelist[..i];
      var m := namelist[i];
      memberName := Some(m.name);
      if IsCodeMember(m.name) {
        match m.contents
        case Decoded(text) =>
          allCodeContent := allCodeContent + [text];
        case Unreadable =>
          // the read raised: the member is skipped
      }
      i := i + 1;
    }
    assert namelist[..i] == namelist;
  }

  /** `process_file_upload`, step by step. */
  method ProcessFileUpload(upload: Upload, uploadType: string, tempDir: string) returns (r: Extraction)
    ensures r == ProcessUpload(upload, uploadType, tempDir)
  {
    var filePath := PyPath.Join(tempDir, upload.filename);
    if uploadType == "zip" {
      if upload.isZipFile {
        var allCodeContent, memberName := CollectCode(upload.namelist);
        var codeToProcess := "";
        if allCodeContent != [] {
          codeToProcess := Join(Separator(memberName.value), allCodeContent);
        }
        r := Extracted(codeToProcess, filePath);
      } else {
        r := ValueError(InvalidZipMessage, filePath);
      }
    } else if uploadType == "single" {
      r := Extracted(UniversalNewlines(upload.text), filePath);
    } else {
      r := ValueError(UnknownTypeLead + uploadType, filePath);
    }
  }

  // ---------------------------------------------------------------------------
  // Properties of the collection and the join

  /** Collection keeps `namelist()` order: it distributes over concatenation. */
  lemma {:induction false} CollectedAppend(a: seq<Member>, b: seq<Member>)
    ensures Collected(a + b) == Collected(a) + Collected(b)
    decreases |b|
  {
    if b == [] {
      assert a + b == a;
    } else {
      var ab := a + b;
      assert ab[..|ab| - 1] == a + b[..|b| - 1];
      CollectedAppend(a, b[..|b| - 1]);
    }
  }

  /** A member that is skipped (wrong suffix or failed read) does not stop later members. */
  lemma SkippedMemberKeepsRest(a: seq<Member>, m: Member, b: seq<Member>)
    requires !Collects(m)
    ensures Collected(a + [m] + b) == Collected(a) + Collected(b)
  {
    CollectedAppend(a + [m], b);
    CollectedAppend(a, [m]);
    assert [m][..0] == [];
  }

  /** A text is collected exactly when some readable code member decodes to it. */
  lemma {:induction false} CollectedMembers(members: seq<Member>, t: string)
    ensures t in Collected(members)
        <==> exists i :: 0 <= i < |members| && Collects(members[i]) && members[i].contents.text == t
    decreases |members|
  {
    if members != [] {
      var init := members[..|members| - 1];
      CollectedMembers(init, t);
      if exists i :: 0 <= i < |init| && Collects(init[i]) && init[i].contents.text == t {
        var i :| 0 <= i < |init| && Collects(init[i]) && init[i].contents.text == t;
        assert members[i] == init[i];
      }
      if exists i :: 0 <= i < |members| && Collects(members[i]) && members[i].contents.text == t {
        var i :| 0 <= i < |members| && Collects(members[i]) && members[i].contents.text == t;
        if i < |init| {
          assert init[i] == members[i];
        }
      }
    }
  }

  /** A character missing from a text is missing from its head and its tail. */
  lemma NotInHeadOrTail(s: string, c: char)
    requires s != [] && c !in s
    ensures s[0] != c && c !in s[1..]
  {
    assert s[0] in s;
    forall k | 0 <= k < |s[1..]| ensures s[1..][k] != c {
      assert s[1..][k] == s[k + 1];
    }
  }

  /** Text without a carriage return reads back unchanged in text mode. */
  lemma {:induction false} PlainTextReadsUnchanged(s: string)
    requires '\r' !in s
    ensures UniversalNewlines(s) == s
    decreases |s|
  {
    if s != [] {
      NotInHeadOrTail(s, '\r');
      PlainTextReadsUnchanged(s[1..]);
    }
  }

  /**
   * A Windows (`\r\n`) or old Mac (`\r` not followed by `\n`) line break
   * after a line without carriage returns reads as one `\n`.
   */
  lemma {:induction false} LineBreakReadsAsNewline(line: string, brk: string, rest: string)
    requires '\r' !in line
    requires brk == "\r\n" || (brk == "\r" && (rest == [] || rest[0] != '\n'))
    ensures UniversalNewlines(line + brk + rest) == line + "\n" + UniversalNewlines(rest)
    decreases |line|
  {
    var s := line + brk + rest;
    if line == [] {
      assert s == brk + rest;
      assert s[|brk|..] == rest;
    } else {
      NotInHeadOrTail(line, '\r');
      assert s[0] == line[0];
      assert s[1..] == line[1..] + brk + rest;
      LineBreakReadsAsNewline(line[1..], brk, rest);
    }
  }

  /** A file of `\r\n`-terminated lines reads as the same lines joined with `\n`. */
  lemma {:induction false} CrLfLinesReadAsLfLines(lines: seq<string>)
    requires forall i :: 0 <= i < |lines| ==> '\r' !in lines[i]
    ensures UniversalNewlines(Join("\r\n", lines)) == Join("\n", lines)
    decreases |lines|
  {
    if |lines| == 1 {
      PlainTextReadsUnchanged(lines[0]);
    } else if |lines| > 1 {
      LineBreakReadsAsNewline(lines[0], "\r\n", Join("\r\n", lines[1..]));
      CrLfLinesReadAsLfLines(lines[1..]);
    }
  }

  /** Names ending in `.jsx`, `.tsx` or `.txt` are not collected from a zip. */
  lemma WiderSuffixesNotCollected(stem: string, ext: string)
    requires ext == "jsx" || ext == "tsx" || ext == "txt"
    ensures !IsCodeMember(stem + "." + ext)
  {
    var name := stem + "." + ext;
    var last := name[|name| - 1];
    assert last == ext[2];
    assert last == 'x' || last == 't';
    forall i | 0 <= i < |CodeSuffixes|
      ensures !EndsWith(name, CodeSuffixes[i])
    {
      var s := CodeSuffixes[i];
      assert s[|s| - 1] != last;
    }
  }

  /**
   * With at least one collected content the result is the contents joined
   * with k - 1 separators naming the last listed member, and it begins with
   * the first content, with no header before it.
   */
  lemma ZipCodeLayout(members: seq<Member>)
    requires Collected(members) != []
    ensures members != []
    ensures var contents := Collected(members);
      var sep := Separator(members[|members| - 1].name);
      && |ZipCode(members)| == TotalLength(contents) + (|contents| - 1) * |sep|
      && |contents[0]| <= |ZipCode(members)|
      && ZipCode(members)[..|contents[0]|] == contents[0]
  {
    var contents := Collected(members);
    var sep := Separator(members[|members| - 1].name);
    JoinLength(sep, contents);
    JoinStartsWithFirst(sep, contents);
  }

  /**
   * Between every two neighbouring collected contents sits one separator
   * naming the last listed member.
   */
  lemma ZipCodeSeparatesNeighbours(members: seq<Member>, i: nat)
    requires 0 < i < |Collected(members)|
    ensures members != []
    ensures var contents := Collected(members);
      var sep := Separator(members[|members| - 1].name);
      ZipCode(members) == Join(sep, contents[..i]) + sep + Join(sep, contents[i..])
  {
    JoinSplit(Separator(members[|members| - 1].name), Collected(members), i);
  }

  /**
   * A skipped last entry adds no content but renames every separator after
   * itself.
   */
  lemma ZipCodeTrailingSkipped(members: seq<Member>, m: Member)
    requires Collected(members) != [] && !Collects(m)
    ensures ZipCode(members + [m]) == Join(Separator(m.name), Collected(members))
  {
    assert (members + [m])[..|members + [m]| - 1] == members;
  }

  /**
   * A collected last entry appends its text after one more separator, and
   * every separator then names it.
   */
  lemma ZipCodeTrailingCollected(members: seq<Member>, m: Member)
    requires Collects(m)
    ensures ZipCode(members + [m]) ==
      if Collected(members) == [] then m.contents.text
      else Join(Separator(m.name), Collected(members)) + Separator(m.name) + m.contents.text
  {
    var ms := members + [m];
    assert ms[..|ms| - 1] == members;
    assert Collected(ms) == Collected(members) + [m.contents.text];
    if Collected(members) != [] {
      JoinAppend(Separator(m.name), Collected(members), m.contents.text);
    }
  }

  /**
   * The separator names the last entry of `namelist()` even when that entry
   * is not collected, and not the file that follows it.
   */
  lemma SeparatorNamesLastListed(first: string, second: string, p: string, q: string, last: Member)
    requires IsCodeMember(first) && IsCodeMember(second)
    requires !Collects(last)
    ensures ZipCode([Member(first, Decoded(p)), Member(second, Decoded(q)), last])
         == p + "\n\n--- Next File: " + last.name + " ---\n\n" + q
  {
    var ms := [Member(first, Decoded(p)), Member(second, Decoded(q)), last];
    assert ms[..2][..1][..0] == [];
    assert Collected(ms[..2][..1]) == [p];
    assert Collected(ms[..2]) == [p, q];
    assert Collected(ms) == [p, q];
    assert [p, q][1..] == [q];
    var sep := Separator(last.name);
    assert Join(sep, [q]) == q;
    assert Join(sep, [p, q]) == p + sep + q;
    assert ms[|ms| - 1].name == last.name;
  }
}
