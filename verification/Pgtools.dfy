/** Text around pg_restore and psql: commenting out entries of a restore list, and quoting for SQL. */
module Pgtools {
  import opened Bytes
  import opened Streams
  import opened Strings
  import opened TempFiles
  import opened Wrappers

  // ---- Lines ----

  predicate OneLine(s: string) {
    '\n' !in s
  }

  /** The parts of s between its newlines. */
  function Split(s: string): (lines: seq<string>)
    ensures lines != []
  {
    if s == "" then [""]
    else
      var rest := Split(s[1..]);
      if s[0] == '\n' then [""] + rest else [[s[0]] + rest[0]] + rest[1..]
  }

  function Join(parts: seq<string>, sep: string): string {
    if parts == [] then ""
    else if |parts| == 1 then parts[0]
    else parts[0] + sep + Join(parts[1..], sep)
  }

  lemma {:induction false} JoinOfSplit(s: string)
    ensures Join(Split(s), "\n") == s
    ensures forall i :: 0 <= i < |Split(s)| ==> OneLine(Split(s)[i])
  {
    if s != "" {
      JoinOfSplit(s[1..]);
      var rest := Split(s[1..]);
      assert s == [s[0]] + s[1..];
      if s[0] == '\n' {
        assert Split(s)[1..] == rest;
      } else if |rest| > 1 {
        assert Split(s)[1..] == rest[1..];
        assert [s[0]] + rest[0] + "\n" + Join(rest[1..], "\n") == [s[0]] + (rest[0] + "\n" + Join(rest[1..], "\n"));
      }
    }
  }

  lemma {:induction false} SplitAfterLine(u: string, s: string)
    requires OneLine(u)
    ensures Split(u + s) == [u + Split(s)[0]] + Split(s)[1..]
  {
    if u == "" {
      assert u + s == s && u + Split(s)[0] == Split(s)[0];
    } else {
      SplitAfterLine(u[1..], s);
      assert (u + s)[1..] == u[1..] + s;
      assert [u[0]] + (u[1..] + Split(s)[0]) == u + Split(s)[0];
    }
  }

  lemma {:induction false} SplitOfJoin(lines: seq<string>)
    requires lines != [] && forall i :: 0 <= i < |lines| ==> OneLine(lines[i])
    ensures Split(Join(lines, "\n")) == lines
  {
    if |lines| == 1 {
      SplitAfterLine(lines[0], "");
      assert lines[0] + "" == lines[0];
    } else {
      SplitOfJoin(lines[1..]);
      var tail := "\n" + Join(lines[1..], "\n");
      assert tail[1..] == Join(lines[1..], "\n");
      SplitAfterLine(lines[0], tail);
      assert lines[0] + "" == lines[0];
      assert Join(lines, "\n") == lines[0] + tail;
    }
  }

  // ---- Entries a scratch database cannot satisfy ----

  ghost predicate Number(s: string) {
    s != "" && AllDigits(s)
  }

  /** A policy, or the public schema itself. */
  ghost predicate SkippedObject(tail: string) {
    || (exists more :: tail == "POLICY " + more)
    || tail == "SCHEMA - public"
    || (exists more :: tail == "SCHEMA - public " + more)
  }

  /** A list entry for such an object: its number, two object ids, and what it is. */
  ghost predicate SkippedEntry(line: string) {
    exists a, b, c, tail :: Number(a) && Number(b) && Number(c) && SkippedObject(tail) &&
                            line == a + "; " + b + " " + c + " " + tail
  }

  /** The rest of s after its leading digits, of which there must be some. */
  function AfterDigits(s: string): (r: Option<string>)
    ensures r.Some? ==> |r.value| < |s|
  {
    if s == "" || !IsDigit(s[0]) then None
    else if AfterDigits(s[1..]).Some? then AfterDigits(s[1..])
    else Some(s[1..])
  }

  function After(s: string, p: string): Option<string> {
    if HasPrefix(s, p) then Some(s[|p|..]) else None
  }

  /** The expression that selects the entries, matched from left to right. */
  predicate SandboxSkip(line: string) {
    var s1 := AfterDigits(line);
    s1.Some? &&
    var s2 := After(s1.value, "; ");
    s2.Some? &&
    var s3 := AfterDigits(s2.value);
    s3.Some? &&
    var s4 := After(s3.value, " ");
    s4.Some? &&
    var s5 := AfterDigits(s4.value);
    s5.Some? &&
    var s6 := After(s5.value, " ");
    s6.Some? && (HasPrefix(s6.value, "POLICY ") || s6.value == "SCHEMA - public" || HasPrefix(s6.value, "SCHEMA - public "))
  }

  lemma {:induction false} DigitsSplit(s: string) returns (a: string)
    requires AfterDigits(s).Some?
    ensures Number(a) && s == a + AfterDigits(s).value
  {
    a := [s[0]];
    if AfterDigits(s[1..]).Some? {
      var b := DigitsSplit(s[1..]);
      a := a + b;
    }
  }

  lemma {:induction false} DigitsRead(a: string, t: string)
    requires Number(a) && (t == "" || !IsDigit(t[0]))
    ensures AfterDigits(a + t) == Some(t)
  {
    assert (a + t)[1..] == a[1..] + t;
    if |a| > 1 {
      DigitsRead(a[1..], t);
    }
  }

  /** Matching decides exactly the language. */
  lemma SkipMeaning(line: string)
    ensures SandboxSkip(line) <==> SkippedEntry(line)
  {
    if SandboxSkip(line) {
      SkipSound(line);
    }
    if a, b, c, tail :| Number(a) && Number(b) && Number(c) && SkippedObject(tail) && line == a + "; " + b + " " + c + " " + tail {
      SkipComplete(a, b, c, tail);
    }
  }

  lemma SkipSound(line: string)
    requires SandboxSkip(line)
    ensures SkippedEntry(line)
  {
    hide AfterDigits, SkippedObject;
    var s1 := AfterDigits(line).value;
    var s3 := AfterDigits(s1[2..]).value;
    var s5 := AfterDigits(s3[1..]).value;
    var a := DigitsSplit(line);
    var b := DigitsSplit(s1[2..]);
    var c := DigitsSplit(s3[1..]);
    ObjectMeaning(s5[1..]);
    Regroup(a, s1, b, s3, c, s5);
  }

  lemma Regroup(a: string, s1: string, b: string, s3: string, c: string, s5: string)
    requires HasPrefix(s1, "; ") && HasPrefix(s3, " ") && HasPrefix(s5, " ")
    requires s1[2..] == b + s3 && s3[1..] == c + s5
    ensures a + s1 == a + "; " + b + " " + c + " " + s5[1..]
  {
    assert s1 == "; " + (b + s3) && s3 == " " + (c + s5) && s5 == " " + s5[1..];
  }

  lemma SkipComplete(a: string, b: string, c: string, tail: string)
    requires Number(a) && Number(b) && Number(c) && SkippedObject(tail)
    ensures SandboxSkip(a + "; " + b + " " + c + " " + tail)
  {
    var s5 := " " + tail;
    var s3 := " " + (c + s5);
    var s1 := "; " + (b + s3);
    assert a + "; " + b + " " + c + " " + tail == a + s1;
    DigitsRead(a, s1);
    assert s1[2..] == b + s3;
    DigitsRead(b, s3);
    assert s3[1..] == c + s5;
    DigitsRead(c, s5);
    assert s5[1..] == tail;
    ObjectMeaning(tail);
  }

  lemma ObjectMeaning(tail: string)
    ensures SkippedObject(tail) <==>
            HasPrefix(tail, "POLICY ") || tail == "SCHEMA - public" || HasPrefix(tail, "SCHEMA - public ")
  {
    if HasPrefix(tail, "POLICY ") {
      assert tail == "POLICY " + tail[7..];
    }
    if HasPrefix(tail, "SCHEMA - public ") {
      assert tail == "SCHEMA - public " + tail[16..];
    }
  }

  // ---- Filtering the list ----

  ghost function Comment(line: string): string {
    if SkippedEntry(line) then ";" + line else line
  }

  ghost function Commented(lines: seq<string>): (r: seq<string>)
    ensures |r| == |lines| && forall i :: 0 <= i < |lines| ==> r[i] == Comment(lines[i])
  {
    seq(|lines|, i requires 0 <= i < |lines| => Comment(lines[i]))
  }

  ghost function Filtered(toc: string): string {
    Join(Commented(Split(toc)), "\n")
  }

  /** Comments out exactly the entries of the language; every other line, the number of lines and their
      order stay. */
  method FilterSandboxTOC(toc: string) returns (out: string)
    ensures out == Filtered(toc)
    ensures |Split(out)| == |Split(toc)|
    ensures forall i :: 0 <= i < |Split(toc)| ==>
              Split(out)[i] == if SkippedEntry(Split(toc)[i]) then ";" + Split(toc)[i] else Split(toc)[i]
  {
    hide SandboxSkip, SkippedEntry, Split, Join;
    var lines := Split(toc);
    ghost var was := lines;
    for i := 0 to |lines|
      invariant |lines| == |was|
      invariant forall j :: 0 <= j < |lines| ==> lines[j] == if j < i then Comment(was[j]) else was[j]
    {
      var line := lines[i];
      SkipMeaning(line);
      if SandboxSkip(line) {
        lines := lines[i := ";" + line];
      }
    }
    assert lines == Commented(was);
    out := Join(lines, "\n");
    FilteredLines(toc);
  }

  lemma FilteredLines(toc: string)
    ensures Split(Filtered(toc)) == Commented(Split(toc))
  {
    hide SkippedEntry, Split, Join;
    JoinOfSplit(toc);
    SplitOfJoin(Commented(Split(toc)));
  }

  /** A commented entry is no entry. */
  lemma CommentFinal(line: string)
    ensures !SkippedEntry(";" + line)
    ensures Comment(Comment(line)) == Comment(line)
  {
    SkipMeaning(";" + line);
  }

  /** Filtering twice is filtering once. */
  lemma FilterIdempotent(toc: string)
    ensures Filtered(Filtered(toc)) == Filtered(toc)
  {
    hide SkippedEntry, Split, Join;
    FilteredLines(toc);
    var lines := Split(toc);
    forall i | 0 <= i < |lines|
      ensures Comment(Comment(lines[i])) == Comment(lines[i])
    {
      CommentFinal(lines[i]);
    }
    assert Commented(Commented(lines)) == Commented(lines);
  }

  ghost function Uncomment(line: string): string {
    if line != "" && line[0] == ';' && SkippedEntry(line[1..]) then line[1..] else line
  }

  ghost function Unfiltered(toc: string): string {
    var lines := Split(toc);
    Join(seq(|lines|, i requires 0 <= i < |lines| => Uncomment(lines[i])), "\n")
  }

  /** Taking the comments off the entries again gives back the original text, byte for byte, exactly
      when the original did not itself contain a commented entry of that kind. */
  lemma FilterReversible(toc: string)
    ensures Unfiltered(Filtered(toc)) == toc <==> forall line :: line in Split(toc) ==> Uncomment(line) == line
  {
    hide SkippedEntry, Split, Join;
    var lines, after := Split(toc), Commented(Split(toc));
    FilteredLines(toc);
    JoinOfSplit(toc);
    var back := seq(|after|, i requires 0 <= i < |after| => Uncomment(after[i]));
    forall i | 0 <= i < |lines|
      ensures OneLine(back[i]) && (back[i] == lines[i] <==> Uncomment(lines[i]) == lines[i])
    {
      UncommentOfComment(lines[i]);
    }
    SplitOfJoin(back);
    if back == lines {
      forall line | line in lines
        ensures Uncomment(line) == line
      {
        var i :| 0 <= i < |lines| && lines[i] == line;
        assert back[i] == lines[i];
      }
    }
  }

  lemma UncommentOfComment(line: string)
    requires OneLine(line)
    ensures OneLine(Uncomment(Comment(line)))
    ensures Uncomment(Comment(line)) == line <==> Uncomment(line) == line
  {
    CommentFinal(if line != "" then line[1..] else line);
    assert (";" + line)[1..] == line;
    if line != "" && line[0] == ';' {
      assert line == ";" + line[1..];
    }
  }

  // ---- Restoring into a scratch database ----

  /** How pg_restore turns out on an archive: what it lists, and whether it restores with a list file of
      given contents. */
  datatype PgRestore = PgRestore(toc: Option<string>, restores: seq<byte> -> bool)

  /** The contents of the list file: the filtered listing. */
  ghost function ListFile(pg: PgRestore): seq<byte>
    requires pg.toc.Some?
  {
    Utf8(Filtered(pg.toc.value))
  }

  /** pg_restore lists the archive and restores it with its filtered listing. */
  ghost predicate Willing(pg: PgRestore) {
    pg.toc.Some? && pg.restores(ListFile(pg))
  }

  /** The list file cannot be created, does not fit beside the dump, or cannot be closed. */
  ghost predicate ListFails(pg: PgRestore, disk: Disk, held: nat) {
    pg.toc.Some? && (!disk.canCreateList || !disk.Room(held + |ListFile(pg)|) || !disk.canCloseList)
  }

  /** Why a restore fails, or nothing. */
  ghost function RestoreFailure(pg: PgRestore, disk: Disk, held: nat): (reason: string)
    ensures reason == "" <==> Willing(pg) && !ListFails(pg, disk, held)
  {
    if pg.toc.None? then "pg_restore --list failed: "
    else if !disk.canCreateList then "create toc list file: "
    else if !disk.Room(held + |ListFile(pg)|) then "write toc list file: "
    else if !disk.canCloseList then "close toc list file: "
    else if !pg.restores(ListFile(pg)) then "pg_restore failed: "
    else ""
  }

  /** Writes the filtered listing to a temporary file, beside a dump of held bytes. */
  method SandboxTOC(dir: TempDir, pg: PgRestore, held: nat) returns (path: Option<nat>, reason: string)
    requires dir.Valid() && dir.disk.Room(held)
    modifies dir`files, dir`next
    ensures dir.Valid()
    ensures path.Some? <==> pg.toc.Some? && !ListFails(pg, dir.disk, held)
    ensures path.Some? ==> path.value !in old(dir.files) && dir.files == old(dir.files)[path.value := ListFile(pg)]
    ensures path.None? ==> dir.files == old(dir.files) && reason == RestoreFailure(pg, dir.disk, held) != ""
  {
    hide Filtered, Utf8, Willing;
    if pg.toc.None? {
      return None, "pg_restore --list failed: ";
    }
    if !dir.disk.canCreateList {
      return None, "create toc list file: ";
    }
    var list := FilterSandboxTOC(pg.toc.value);
    var file, ok := WriteNew(dir, Utf8(list), held);
    if !ok {
      dir.files := dir.files - {file};
      return None, "write toc list file: ";
    }
    if !dir.disk.canCloseList {
      dir.files := dir.files - {file};
      return None, "close toc list file: ";
    }
    path, reason := Some(file), "";
  }

  /** Writes a new file beside one of held bytes; when it does not fit, part of it is left. */
  method WriteNew(dir: TempDir, contents: seq<byte>, held: nat) returns (file: nat, ok: bool)
    requires dir.Valid() && dir.disk.Room(held)
    modifies dir`files, dir`next
    ensures dir.Valid() && file !in old(dir.files) && file in dir.files
    ensures dir.files - {file} == old(dir.files)
    ensures ok <==> dir.disk.Room(held + |contents|)
    ensures ok ==> dir.files == old(dir.files)[file := contents]
  {
    file := dir.next;
    dir.next := file + 1;
    var tmp := new Writer(dir.disk.Beside(held));
    ok := tmp.Write(contents);
    assert [] + contents == contents;
    dir.files := dir.files[file := tmp.reached];
  }

  /** Restores an archive into a scratch database; the list file is gone afterwards. */
  method Restore(dir: TempDir, pg: PgRestore, held: nat) returns (reason: string)
    requires dir.Valid() && dir.disk.Room(held)
    modifies dir`files, dir`next
    ensures dir.Valid() && dir.files == old(dir.files)
    ensures reason == RestoreFailure(pg, dir.disk, held)
  {
    hide ListFile, Filtered;
    var path;
    path, reason := SandboxTOC(dir, pg, held);
    if path.None? {
      return;
    }
    var restored := pg.restores(dir.files[path.value]);
    dir.files := dir.files - {path.value};
    reason := if restored then "" else "pg_restore failed: ";
  }

  // ---- Quoting ----

  /** Every quote character doubled. */
  function Doubled(q: char, s: string): string {
    if s == "" then "" else (if s[0] == q then [q, q] else [s[0]]) + Doubled(q, s[1..])
  }

  /** Doubling goes character by character. */
  lemma {:induction false} DoubledParts(q: char, s: string, t: string, c: char)
    ensures Doubled(q, s + t) == Doubled(q, s) + Doubled(q, t)
    ensures Doubled(q, [c]) == if c == q then [q, q] else [c]
  {
    assert [c][1..] == "";
    if s == "" {
      assert s + t == t;
    } else {
      DoubledParts(q, s[1..], t, c);
      assert (s + t)[1..] == s[1..] + t;
    }
  }

  function Quote(q: char, s: string): string {
    [q] + Doubled(q, s) + [q]
  }

  function QuoteIdent(id: string): string {
    Quote('"', id)
  }

  function QuoteLiteral(s: string): string {
    Quote('\'', s)
  }

  /** How a scanner reads the inside of a quoted string: a doubled quote stands for one, a single quote
      ends it. The result is the text read and what follows the closing quote. */
  function ReadInside(q: char, text: string): Option<(string, string)> {
    if text == "" then None
    else if text[0] != q then
      var r := ReadInside(q, text[1..]);
      if r.Some? then Some(([text[0]] + r.value.0, r.value.1)) else None
    else if |text| > 1 && text[1] == q then
      var r := ReadInside(q, text[2..]);
      if r.Some? then Some(([q] + r.value.0, r.value.1)) else None
    else Some(("", text[1..]))
  }

  function ReadQuoted(q: char, text: string): Option<(string, string)> {
    if text != "" && text[0] == q then ReadInside(q, text[1..]) else None
  }

  lemma {:induction false} ReadDoubled(q: char, s: string, rest: string)
    requires rest == "" || rest[0] != q
    ensures ReadInside(q, Doubled(q, s) + [q] + rest) == Some((s, rest))
  {
    var text := Doubled(q, s) + [q] + rest;
    if s == "" {
      assert text == [q] + rest;
    } else {
      ReadDoubled(q, s[1..], rest);
      assert s == [s[0]] + s[1..];
      var tail := Doubled(q, s[1..]) + [q] + rest;
      if s[0] == q {
        assert text == [q, q] + tail;
      } else {
        assert text == [s[0]] + tail;
      }
    }
  }

  lemma {:induction false} ReadInsideExact(q: char, text: string)
    requires ReadInside(q, text).Some?
    ensures var (s, rest) := ReadInside(q, text).value;
            text == Doubled(q, s) + [q] + rest && (rest == "" || rest[0] != q)
  {
    if text[0] != q {
      ReadInsideExact(q, text[1..]);
      var (s, rest) := ReadInside(q, text[1..]).value;
      assert ([text[0]] + s)[1..] == s;
      assert text == [text[0]] + text[1..];
    } else if |text| > 1 && text[1] == q {
      ReadInsideExact(q, text[2..]);
      var (s, rest) := ReadInside(q, text[2..]).value;
      assert ([q] + s)[1..] == s;
      assert text == [q, q] + text[2..];
    }
  }

  /** A scanner reads a quoted string, followed by anything but that quote, back as exactly the string,
      and reads nothing else that way. */
  lemma QuoteReadBack(q: char, s: string, rest: string, text: string)
    requires rest == "" || rest[0] != q
    ensures ReadQuoted(q, text) == Some((s, rest)) <==> text == Quote(q, s) + rest
  {
    ReadDoubled(q, s, rest);
    assert (Quote(q, s) + rest)[1..] == Doubled(q, s) + [q] + rest;
    if ReadQuoted(q, text) == Some((s, rest)) {
      ReadInsideExact(q, text[1..]);
      assert text == [q] + text[1..];
    }
  }

  /** A quoted identifier names exactly itself in any statement that goes on without a quote. */
  lemma IdentReadBack(id: string, rest: string)
    requires rest == "" || rest[0] != '"'
    ensures ReadQuoted('"', QuoteIdent(id) + rest) == Some((id, rest))
  {
    QuoteReadBack('"', id, rest, QuoteIdent(id) + rest);
  }

  // ---- Schema names ----

  /** White space as unicode.IsSpace has it. */
  predicate IsSpace(c: char) {
    || '\t' <= c <= '\r' || c == ' ' || c == '\U{85}' || c == '\U{A0}' || c == '\U{1680}'
    || '\U{2000}' <= c <= '\U{200A}' || c == '\U{2028}' || c == '\U{2029}' || c == '\U{202F}'
    || c == '\U{205F}' || c == '\U{3000}'
  }

  predicate AllSpace(s: string) {
    forall i :: 0 <= i < |s| ==> IsSpace(s[i])
  }

  function TrimLeft(s: string): (t: string)
    ensures |t| <= |s|
  {
    if s != "" && IsSpace(s[0]) then TrimLeft(s[1..]) else s
  }

  function TrimRight(s: string): (t: string)
    ensures |t| <= |s|
  {
    if s != "" && IsSpace(s[|s| - 1]) then TrimRight(s[..|s| - 1]) else s
  }

  function TrimSpace(s: string): string {
    TrimRight(TrimLeft(s))
  }

  predicate Trimmed(s: string) {
    s != "" ==> !IsSpace(s[0]) && !IsSpace(s[|s| - 1])
  }

  lemma {:induction false} TrimLeftSplit(s: string) returns (a: string)
    ensures s == a + TrimLeft(s) && AllSpace(a)
    ensures TrimLeft(s) != "" ==> !IsSpace(TrimLeft(s)[0])
  {
    hide IsSpace;
    a := "";
    if s != "" && IsSpace(s[0]) {
      var b := TrimLeftSplit(s[1..]);
      a := [s[0]] + b;
    }
  }

  lemma {:induction false} TrimRightSplit(s: string) returns (b: string)
    ensures s == TrimRight(s) + b && AllSpace(b)
    ensures TrimRight(s) != "" ==> !IsSpace(TrimRight(s)[|TrimRight(s)| - 1])
  {
    hide IsSpace;
    b := "";
    if s != "" && IsSpace(s[|s| - 1]) {
      var a := TrimRightSplit(s[..|s| - 1]);
      b := a + [s[|s| - 1]];
    }
  }

  /** Trimming takes off white space at both ends and leaves none there. */
  lemma TrimSpaceSplit(s: string) returns (a: string, b: string)
    ensures s == a + TrimSpace(s) + b && AllSpace(a) && AllSpace(b) && Trimmed(TrimSpace(s))
  {
    hide IsSpace, TrimLeft, TrimRight, AllSpace;
    a := TrimLeftSplit(s);
    b := TrimRightSplit(TrimLeft(s));
    var t := TrimSpace(s);
    assert s == a + (t + b) == a + t + b;
    assert t != "" ==> TrimLeft(s)[0] == t[0];
  }

  /** The trimmed names that are not blank, in order. */
  function Cleaned(ids: seq<string>): (out: seq<string>)
    ensures forall i :: 0 <= i < |out| ==> out[i] != ""
  {
    if ids == [] then []
    else
      var t := TrimSpace(ids[|ids| - 1]);
      Cleaned(ids[..|ids| - 1]) + if t != "" then [t] else []
  }

  /** Cleaning goes name by name: a blank one is dropped, any other is trimmed. */
  lemma {:induction false} CleanedParts(a: seq<string>, b: seq<string>, s: string)
    ensures Cleaned(a + b) == Cleaned(a) + Cleaned(b)
    ensures Cleaned([s]) == if AllSpace(s) then [] else [TrimSpace(s)]
  {
    hide TrimSpace, IsSpace;
    BlankIsTrimmedAway(s);
    assert [s][..0] == [];
    if b == [] {
      assert a + b == a;
    } else {
      var n := |b| - 1;
      CleanedParts(a, b[..n], s);
      assert (a + b)[..|a| + n] == a + b[..n];
    }
  }

  lemma BlankIsTrimmedAway(s: string)
    ensures TrimSpace(s) == "" <==> AllSpace(s)
  {
    hide TrimSpace, IsSpace;
    var a, b := TrimSpaceSplit(s);
    if TrimSpace(s) != "" {
      assert s[|a|] == TrimSpace(s)[0];
    }
  }

  method CleanIdents(ids: seq<string>) returns (out: seq<string>)
    ensures out == Cleaned(ids)
  {
    hide TrimSpace;
    out := [];
    for i := 0 to |ids|
      invariant out == Cleaned(ids[..i])
    {
      assert ids[..i + 1][..i] == ids[..i];
      var s := TrimSpace(ids[i]);
      if s != "" {
        out := out + [s];
      }
    }
    assert ids[..|ids|] == ids;
  }

  const SCOPE_OPEN := "AND n.nspname IN ("
  const SCOPE_CLOSE := ") "

  function Literals(names: seq<string>): (r: seq<string>)
    ensures |r| == |names| && forall i :: 0 <= i < |names| ==> r[i] == QuoteLiteral(names[i])
  {
    seq(|names|, i requires 0 <= i < |names| => QuoteLiteral(names[i]))
  }

  /** The part of the policy query that limits it to some schemas. */
  method Scope(schemas: seq<string>) returns (scope: string)
    ensures if Cleaned(schemas) == [] then scope == ""
            else HasPrefix(scope, SCOPE_OPEN) && ReadList(scope[|SCOPE_OPEN|..]) == Some((Cleaned(schemas), SCOPE_CLOSE))
  {
    scope := "";
    var clean := CleanIdents(schemas);
    if |clean| > 0 {
      var lits: seq<string> := [];
      for i := 0 to |clean|
        invariant |lits| == i && forall j :: 0 <= j < i ==> lits[j] == QuoteLiteral(clean[j])
      {
        lits := lits + [QuoteLiteral(clean[i])];
      }
      assert lits == Literals(clean);
      scope := SCOPE_OPEN + Join(lits, ", ") + SCOPE_CLOSE;
      assert scope[|SCOPE_OPEN|..] == Join(lits, ", ") + SCOPE_CLOSE;
      assert SCOPE_CLOSE[0] == ')' && ", "[0] == ',' && "'"[0] == '\'';
      ListReadBack(clean, SCOPE_CLOSE);
    }
  }

  /** How a scanner reads a list of literals separated by commas: the names and what follows. */
  function ReadList(text: string): Option<(seq<string>, string)>
    decreases |text|
  {
    var first := ReadQuoted('\'', text);
    if first.None? then None
    else
      var (name, rest) := first.value;
      if !HasPrefix(rest, ", ") || |rest| >= |text| then Some(([name], rest))
      else
        var more := ReadList(rest[2..]);
        if more.Some? then Some(([name] + more.value.0, more.value.1)) else None
  }

  /** The list is read back as exactly the names, whatever characters they contain. */
  lemma {:induction false} ListReadBack(names: seq<string>, rest: string)
    requires names != []
    requires !HasPrefix(rest, ", ") && !HasPrefix(rest, "'")
    ensures ReadList(Join(Literals(names), ", ") + rest) == Some((names, rest))
  {
    hide Doubled, ReadInside;
    var text := Join(Literals(names), ", ") + rest;
    if |names| == 1 {
      assert text == QuoteLiteral(names[0]) + rest;
      QuoteReadBack('\'', names[0], rest, text);
      assert names == [names[0]];
    } else {
      ListReadBack(names[1..], rest);
      var tail := Join(Literals(names[1..]), ", ") + rest;
      assert Literals(names)[1..] == Literals(names[1..]);
      assert text == QuoteLiteral(names[0]) + (", " + tail);
      QuoteReadBack('\'', names[0], ", " + tail, text);
      assert (", " + tail)[2..] == tail;
      assert names == [names[0]] + names[1..];
    }
  }
}
