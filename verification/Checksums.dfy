// Looking an archive's digest up in checksums.txt: the Go scan (hydrate/hydrate.go,
// checksumFor) and the POSIX shim's awk program (cmd/pitot/shim.go), and when
// they accept the same digest.
module Checksums {
  import opened Envelopes

  datatype Reader = GoReader | AwkReader

  // What separates fields: strings.Fields on ASCII, and awk's default separators.
  predicate Blank(r: Reader, c: char) {
    c == ' ' || c == '\t' || (r.GoReader? && (c == '\r' || c as int == 0x0B || c as int == 0x0C))
  }

  function Lines(s: string): (lines: seq<string>)
    ensures |lines| > 0
    ensures forall i :: 0 <= i < |lines| ==> '\n' !in lines[i]
  {
    if s == "" then [""]
    else
      var rest := Lines(s[1..]);
      if s[0] == '\n' then [""] + rest else [[s[0]] + rest[0]] + rest[1..]
  }

  // The length of the word at the start of a line.
  function WordLength(r: Reader, s: string): (n: nat)
    ensures n <= |s| && forall i :: 0 <= i < n ==> !Blank(r, s[i])
    ensures n < |s| ==> Blank(r, s[n])
  {
    if s == "" || Blank(r, s[0]) then 0 else 1 + WordLength(r, s[1..])
  }

  function Fields(r: Reader, s: string): (fields: seq<string>)
    ensures forall i :: 0 <= i < |fields| ==> fields[i] != "" && forall c :: c in fields[i] ==> c in s && !Blank(r, c)
    decreases |s|
  {
    if s == "" then []
    else if Blank(r, s[0]) then Fields(r, s[1..])
    else
      var n := WordLength(r, s);
      [s[..n]] + Fields(r, s[n..])
  }

  function Lower(s: string): string {
    seq(|s|, i requires 0 <= i < |s| => if 'A' <= s[i] <= 'Z' then (s[i] as int + 32) as char else s[i])
  }

  // Lower-casing turns the capital letters into the small ones, and leaves all else.
  lemma LowerLetters(s: string, i: nat)
    requires i < |s|
    ensures |Lower(s)| == |s|
    ensures forall k :: 0 <= k < 26 && s[i] == CAPITALS[k] ==> Lower(s)[i] == LETTERS[k]
    ensures (forall k :: 0 <= k < 26 ==> s[i] != CAPITALS[k]) ==> Lower(s)[i] == s[i]
  {
    if 'A' <= s[i] <= 'Z' {
      assert s[i] == CAPITALS[s[i] as int - 'A' as int];
    }
  }

  const CAPITALS := "ABCDEFGHIJKLMNOPQRSTUVWXYZ"
  const LETTERS := "abcdefghijklmnopqrstuvwxyz"

  // ----- Go -----

  predicate GoEntry(line: string, name: string) {
    |Fields(GoReader, line)| == 2 && Fields(GoReader, line)[1] == name
  }

  // The first entry for the name decides.
  ghost predicate GoListed(manifest: string, name: string, digest: string) {
    exists i :: 0 <= i < |Lines(manifest)| && GoEntry(Lines(manifest)[i], name)
      && Lower(Fields(GoReader, Lines(manifest)[i])[0]) == digest
      && forall j :: 0 <= j < i ==> !GoEntry(Lines(manifest)[j], name)
  }

  method ChecksumFor(manifest: string, name: string) returns (want: Option<string>)
    ensures want.Some? ==> GoListed(manifest, name, want.value)
    ensures want.None? ==> forall i :: 0 <= i < |Lines(manifest)| ==> !GoEntry(Lines(manifest)[i], name)
    ensures forall digest :: GoListed(manifest, name, digest) ==> want == Some(digest)
  {
    var lines := Lines(manifest);
    for i := 0 to |lines|
      invariant forall j :: 0 <= j < i ==> !GoEntry(lines[j], name)
    {
      var fields := Fields(GoReader, lines[i]);
      if |fields| == 2 && fields[1] == name {
        return Some(Lower(fields[0]));
      }
    }
    return None;
  }

  // ----- The shim -----

  predicate AwkEntry(line: string, name: string) {
    |Fields(AwkReader, line)| >= 2 && Fields(AwkReader, line)[1] == name
  }

  // What `$2 == f { print $1 }` prints, less the last newline.
  function AwkWant(lines: seq<string>, name: string): string {
    if lines == [] then ""
    else
      var rest := AwkWant(lines[1..], name);
      if !AwkEntry(lines[0], name) then rest
      else if rest == "" then Fields(AwkReader, lines[0])[0]
      else Fields(AwkReader, lines[0])[0] + "\n" + rest
  }

  // [ -z "$want" ] || [ "$got" != "$want" ] refuses.
  predicate ShimAccepts(manifest: string, name: string, digest: string) {
    var want := AwkWant(Lines(manifest), name);
    want != "" && digest == want
  }

  predicate IsDigest(s: string) {
    |s| == 64 && forall i :: 0 <= i < |s| ==> '0' <= s[i] <= '9' || 'a' <= s[i] <= 'f'
  }

  // Exactly one line names the archive.
  ghost predicate OnlyEntry(lines: seq<string>, name: string, i: nat) {
    && i < |lines| && AwkEntry(lines[i], name)
    && forall j :: 0 <= j < |lines| && j != i ==> !AwkEntry(lines[j], name)
  }

  lemma {:induction false} NothingWanted(lines: seq<string>, name: string)
    ensures AwkWant(lines, name) == "" <==> forall i :: 0 <= i < |lines| ==> !AwkEntry(lines[i], name)
    decreases |lines|
  {
    if lines != [] {
      NothingWanted(lines[1..], name);
      assert forall i :: 1 <= i < |lines| ==> lines[i] == lines[1..][i - 1];
    }
  }

  lemma NewlineBetween(a: string, b: string)
    ensures '\n' in a + "\n" + b
  {
    assert (a + "\n" + b)[|a|] == '\n';
  }

  // A printed text without newline comes from the only entry.
  lemma {:induction false} OneWanted(lines: seq<string>, name: string, digest: string) returns (i: nat)
    requires AwkWant(lines, name) == digest && digest != "" && '\n' !in digest
    ensures OnlyEntry(lines, name, i) && Fields(AwkReader, lines[i])[0] == digest
    decreases |lines|
  {
    var rest := AwkWant(lines[1..], name);
    NothingWanted(lines[1..], name);
    assert forall j :: 1 <= j < |lines| ==> lines[j] == lines[1..][j - 1];
    if !AwkEntry(lines[0], name) {
      var k := OneWanted(lines[1..], name, digest);
      i := k + 1;
    } else {
      NewlineBetween(Fields(AwkReader, lines[0])[0], rest);
      i := 0;
    }
  }

  lemma {:induction false} OnlyWanted(lines: seq<string>, name: string, i: nat)
    requires OnlyEntry(lines, name, i)
    ensures AwkWant(lines, name) == Fields(AwkReader, lines[i])[0]
    decreases |lines|
  {
    assert forall j :: 1 <= j < |lines| ==> lines[j] == lines[1..][j - 1];
    if i > 0 {
      OnlyWanted(lines[1..], name, i - 1);
    } else {
      NothingWanted(lines[1..], name);
    }
  }

  ghost predicate OnlySpells(lines: seq<string>, name: string, digest: string, i: nat) {
    OnlyEntry(lines, name, i) && Fields(AwkReader, lines[i])[0] == digest
  }

  // The shim accepts a digest exactly when one line, and no other, names the
  // archive and that line spells the digest.
  lemma ShimAcceptsExactly(lines: seq<string>, name: string, digest: string)
    requires IsDigest(digest)
    ensures AwkWant(lines, name) == digest <==> exists i: nat :: OnlySpells(lines, name, digest, i)
  {
    if AwkWant(lines, name) == digest {
      var i := OneWanted(lines, name, digest);
      assert OnlySpells(lines, name, digest, i);
    }
    if i: nat :| OnlySpells(lines, name, digest, i) {
      OnlyWanted(lines, name, i);
    }
  }

  // ----- Agreement -----

  // Carriage returns, vertical tabs and form feeds are all that tell the two apart.
  predicate Plain(s: string) {
    forall i :: 0 <= i < |s| ==> s[i] != '\r' && s[i] as int != 0x0B && s[i] as int != 0x0C
  }

  lemma {:induction false} SameWords(s: string)
    requires Plain(s)
    ensures WordLength(GoReader, s) == WordLength(AwkReader, s)
  {
    if s != "" {
      SameWords(s[1..]);
    }
  }

  lemma {:induction false} SameFields(s: string)
    requires Plain(s)
    ensures Fields(GoReader, s) == Fields(AwkReader, s)
    decreases |s|
  {
    if s != "" {
      if Blank(GoReader, s[0]) {
        SameFields(s[1..]);
      } else {
        SameWords(s);
        SameFields(s[WordLength(GoReader, s)..]);
      }
    }
  }

  lemma {:induction false} PlainLines(s: string)
    requires Plain(s)
    ensures forall i :: 0 <= i < |Lines(s)| ==> Plain(Lines(s)[i])
  {
    if s != "" {
      PlainLines(s[1..]);
    }
  }

  // On a plain manifest whose lines for the archive have two fields, what the shim
  // accepts, Go accepts.
  lemma ShimIsStricter(manifest: string, name: string, digest: string)
    requires Plain(manifest) && IsDigest(digest)
    requires forall i :: 0 <= i < |Lines(manifest)| && AwkEntry(Lines(manifest)[i], name)
               ==> |Fields(AwkReader, Lines(manifest)[i])| == 2
    requires ShimAccepts(manifest, name, digest)
    ensures GoListed(manifest, name, digest)
  {
    var lines := Lines(manifest);
    var i := OneWanted(lines, name, digest);
    PlainLines(manifest);
    forall j | 0 <= j < |lines| ensures GoEntry(lines[j], name) ==> AwkEntry(lines[j], name) {
      SameFields(lines[j]);
    }
    SameFields(lines[i]);
    assert Lower(digest) == digest;
  }

  // ----- Manifests as a release writes them -----

  datatype Entry = Entry(digest: string, name: string)

  function WriteManifest(entries: seq<Entry>): string {
    if entries == [] then "" else entries[0].digest + "  " + entries[0].name + "\n" + WriteManifest(entries[1..])
  }

  predicate Word(s: string) {
    s != "" && forall i :: 0 <= i < |s| ==>
      s[i] != ' ' && s[i] != '\t' && s[i] != '\n' && s[i] != '\r' && s[i] as int != 0x0B && s[i] as int != 0x0C
  }

  predicate Words(entries: seq<Entry>) {
    forall i :: 0 <= i < |entries| ==> Word(entries[i].digest) && Word(entries[i].name)
  }

  lemma {:induction false} WordThenBlank(r: Reader, word: string, rest: string)
    requires forall i :: 0 <= i < |word| ==> !Blank(r, word[i])
    requires rest != "" ==> Blank(r, rest[0])
    ensures WordLength(r, word + rest) == |word|
    decreases |word|
  {
    if word == "" {
      assert word + rest == rest;
    } else {
      assert (word + rest)[1..] == word[1..] + rest;
      WordThenBlank(r, word[1..], rest);
    }
  }

  lemma LastWord(r: Reader, word: string)
    requires Word(word)
    ensures Fields(r, word) == [word]
  {
    WordThenBlank(r, word, "");
    assert word + "" == word && word[..|word|] == word && word[|word|..] == "";
  }

  // Two words with two spaces between them are two fields, to either reader.
  lemma TwoFields(r: Reader, digest: string, name: string)
    requires Word(digest) && Word(name)
    ensures Fields(r, digest + "  " + name) == [digest, name]
  {
    var line, rest := digest + "  " + name, "  " + name;
    assert line == digest + rest;
    WordThenBlank(r, digest, rest);
    assert line[..|digest|] == digest && line[|digest|..] == rest;
    assert rest[1..] == " " + name && (" " + name)[1..] == name;
    assert Fields(r, rest) == Fields(r, " " + name) == Fields(r, name);
    LastWord(r, name);
  }

  lemma {:induction false} FirstLine(line: string, rest: string)
    requires '\n' !in line
    ensures Lines(line + "\n" + rest) == [line] + Lines(rest)
    decreases |line|
  {
    var s := line + "\n" + rest;
    if line == "" {
      assert s[1..] == rest;
    } else {
      assert s[1..] == line[1..] + "\n" + rest;
      FirstLine(line[1..], rest);
      assert [line[0]] + line[1..] == line;
    }
  }

  lemma {:induction false} LinesWritten(entries: seq<Entry>)
    requires Words(entries)
    ensures var lines := Lines(WriteManifest(entries));
            && |lines| == |entries| + 1 && lines[|entries|] == ""
            && forall i :: 0 <= i < |entries| ==> lines[i] == entries[i].digest + "  " + entries[i].name
    decreases |entries|
  {
    if entries != [] {
      var first, rest := entries[0], WriteManifest(entries[1..]);
      LinesWritten(entries[1..]);
      FirstLine(first.digest + "  " + first.name, rest);
      assert WriteManifest(entries) == first.digest + "  " + first.name + "\n" + rest;
    }
  }

  // The i-th line is the i-th entry, to either reader; the last line is empty.
  ghost predicate EntryAt(entries: seq<Entry>, name: string, i: nat)
    requires i <= |entries|
  {
    var lines := Lines(WriteManifest(entries));
    && |lines| == |entries| + 1
    && (GoEntry(lines[i], name) <==> i < |entries| && entries[i].name == name)
    && (AwkEntry(lines[i], name) <==> i < |entries| && entries[i].name == name)
    && (i < |entries| ==>
          Fields(GoReader, lines[i]) == Fields(AwkReader, lines[i]) == [entries[i].digest, entries[i].name])
  }

  lemma EntriesWritten(entries: seq<Entry>, name: string, i: nat)
    requires Words(entries) && i <= |entries|
    ensures EntryAt(entries, name, i)
  {
    LinesWritten(entries);
    if i < |entries| {
      TwoFields(GoReader, entries[i].digest, entries[i].name);
      TwoFields(AwkReader, entries[i].digest, entries[i].name);
    }
  }

  predicate FirstNamed(entries: seq<Entry>, name: string, i: nat) {
    i < |entries| && entries[i].name == name && forall j :: 0 <= j < i ==> entries[j].name != name
  }

  predicate OnlyNamed(entries: seq<Entry>, name: string, i: nat) {
    i < |entries| && entries[i].name == name && forall j :: 0 <= j < |entries| && j != i ==> entries[j].name != name
  }

  // What Go finds in a written manifest: the lower-cased digest of the first entry of the name.
  lemma GoReadsWritten(entries: seq<Entry>, name: string, digest: string)
    requires Words(entries)
    ensures GoListed(WriteManifest(entries), name, digest)
       <==> exists i: nat :: FirstNamed(entries, name, i) && Lower(entries[i].digest) == digest
  {
    hide Fields, Lines;
    forall i: nat | i <= |entries| ensures EntryAt(entries, name, i) {
      EntriesWritten(entries, name, i);
    }
    var lines := Lines(WriteManifest(entries));
    assert EntryAt(entries, name, 0) && |lines| == |entries| + 1;
    if GoListed(WriteManifest(entries), name, digest) {
      var i :| 0 <= i < |lines| && GoEntry(lines[i], name) && Lower(Fields(GoReader, lines[i])[0]) == digest
        && forall j :: 0 <= j < i ==> !GoEntry(lines[j], name);
      assert EntryAt(entries, name, i);
      forall j | 0 <= j < i ensures entries[j].name != name {
        assert EntryAt(entries, name, j);
      }
      assert FirstNamed(entries, name, i);
    }
    if i: nat :| FirstNamed(entries, name, i) && Lower(entries[i].digest) == digest {
      assert EntryAt(entries, name, i);
      forall j | 0 <= j < i ensures !GoEntry(lines[j], name) {
        assert EntryAt(entries, name, j);
      }
    }
  }

  // What the shim accepts by it: a digest that the only entry of the name spells.
  lemma ShimReadsWritten(entries: seq<Entry>, name: string, digest: string)
    requires Words(entries) && IsDigest(digest)
    ensures ShimAccepts(WriteManifest(entries), name, digest)
       <==> exists i: nat :: OnlyNamed(entries, name, i) && entries[i].digest == digest
  {
    hide Fields, Lines;
    forall i: nat | i <= |entries| ensures EntryAt(entries, name, i) {
      EntriesWritten(entries, name, i);
    }
    var lines := Lines(WriteManifest(entries));
    assert EntryAt(entries, name, 0) && |lines| == |entries| + 1;
    ShimAcceptsExactly(lines, name, digest);
    if i: nat :| OnlySpells(lines, name, digest, i) {
      assert EntryAt(entries, name, i);
      forall j | 0 <= j < |entries| && j != i ensures entries[j].name != name {
        assert EntryAt(entries, name, j);
      }
      assert OnlyNamed(entries, name, i);
    }
    if i: nat :| OnlyNamed(entries, name, i) && entries[i].digest == digest {
      assert EntryAt(entries, name, i);
      forall j | 0 <= j < |lines| && j != i ensures !AwkEntry(lines[j], name) {
        assert EntryAt(entries, name, j);
      }
      assert OnlySpells(lines, name, digest, i);
    }
  }
}
