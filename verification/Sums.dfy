/** The SHA256SUMS file as text: printing one line per part (chunker._write_sums), and the
    `splitlines` / `split` reading shared by verify, unpack, unpack_from_store and the bank
    manifest. */
module Sums {
  import opened Prelude

  // ---- an idealised digest ---------------------------------------------------------------

  function HexDigit(d: nat): char
    requires d < 16
  {
    if d < 10 then ('0' as int + d) as char else ('a' as int + d - 10) as char
  }

  function Hex(data: Bytes): string {
    if data == [] then ""
    else [HexDigit(data[0] as nat / 16), HexDigit(data[0] as nat % 16)] + Hex(data[1..])
  }

  /** Stands for sha256sum: hexadecimal, never empty, and without collisions. Proofs use only
      these three facts (DigestInjective, DigestIsWord). */
  function Digest(data: Bytes): string {
    "h" + Hex(data)
  }

  lemma HexCons(data: Bytes)
    requires data != []
    ensures |Hex(data)| >= 2 && Hex(data)[2..] == Hex(data[1..])
    ensures Hex(data)[0] == HexDigit(data[0] as nat / 16) && Hex(data)[1] == HexDigit(data[0] as nat % 16)
  {
  }

  lemma DigitsInjective(x: nat, y: nat)
    requires x < 256 && y < 256
    requires HexDigit(x / 16) == HexDigit(y / 16) && HexDigit(x % 16) == HexDigit(y % 16)
    ensures x == y
  {
    assert x / 16 == y / 16 && x % 16 == y % 16;
  }

  lemma {:induction false} HexInjective(a: Bytes, b: Bytes)
    requires Hex(a) == Hex(b)
    ensures a == b
  {
    if a != [] && b != [] {
      HexCons(a);
      HexCons(b);
      HexInjective(a[1..], b[1..]);
      DigitsInjective(a[0] as nat, b[0] as nat);
      assert a == [a[0]] + a[1..] && b == [b[0]] + b[1..];
    }
  }

  lemma DigestInjective(a: Bytes, b: Bytes)
    requires Digest(a) == Digest(b)
    ensures a == b
  {
    assert Digest(a)[1..] == Hex(a) && Digest(b)[1..] == Hex(b);
    HexInjective(a, b);
  }

  // ---- words and lines -------------------------------------------------------------------

  /** What `str.splitlines` breaks on. */
  predicate IsBreak(c: char) {
    10 <= c as int <= 13 || 28 <= c as int <= 30 || c as int in {133, 0x2028, 0x2029}
  }

  /** What `str.split` and `str.strip` call whitespace. */
  predicate IsSpace(c: char) {
    || IsBreak(c) || c as int in {9, 31, 32, 160, 0x1680, 0x202f, 0x205f, 0x3000}
    || 0x2000 <= c as int <= 0x200a
  }

  /** A non-empty run of characters that survives `split` in one piece. */
  predicate IsWord(s: string) {
    s != "" && forall i | 0 <= i < |s| :: !IsSpace(s[i])
  }

  lemma {:induction false} HexIsDense(data: Bytes)
    ensures forall i | 0 <= i < |Hex(data)| :: !IsSpace(Hex(data)[i])
  {
    if data != [] {
      HexIsDense(data[1..]);
    }
  }

  lemma DigestIsWord(data: Bytes)
    ensures IsWord(Digest(data))
  {
    HexIsDense(data);
  }

  /** The leading characters up to the first one that `stop` accepts. */
  function Lead(s: string, stop: char -> bool): (r: string)
    ensures |r| <= |s| && r == s[..|r|]
    ensures forall i | 0 <= i < |r| :: !stop(r[i])
    ensures |r| < |s| ==> stop(s[|r|])
  {
    if s == "" || stop(s[0]) then "" else [s[0]] + Lead(s[1..], stop)
  }

  lemma {:induction false} LeadExact(word: string, rest: string, stop: char -> bool)
    requires forall i | 0 <= i < |word| :: !stop(word[i])
    requires rest == "" || stop(rest[0])
    ensures Lead(word + rest, stop) == word
  {
    if word != "" {
      assert (word + rest)[1..] == word[1..] + rest;
      LeadExact(word[1..], rest, stop);
    } else {
      assert word + rest == rest;
    }
  }

  /** `s.split()` */
  function Words(s: string): seq<string> {
    if s == "" then []
    else if IsSpace(s[0]) then Words(s[1..])
    else
      var w := Lead(s, IsSpace);
      [w] + Words(s[|w|..])
  }

  /** `text.splitlines()`; a "\r\n" pair counts twice here, which only adds a blank line. */
  function Lines(text: string): seq<string> {
    if text == "" then []
    else
      var l := Lead(text, IsBreak);
      if |l| == |text| then [l] else [l] + Lines(text[|l| + 1..])
  }

  // ---- printing and reading back ---------------------------------------------------------

  datatype Entry = Entry(digest: string, name: string)

  predicate PrintableEntry(e: Entry) {
    IsWord(e.digest) && IsWord(e.name)
  }

  predicate Printable(es: seq<Entry>) {
    forall e | e in es :: PrintableEntry(e)
  }

  function PrintEntry(e: Entry): string {
    e.digest + "  " + e.name + "\n"
  }

  function EntryLines(es: seq<Entry>): (lines: seq<string>)
    ensures |lines| == |es|
  {
    seq(|es|, i requires 0 <= i < |es| => PrintEntry(es[i]))
  }

  function PrintEntries(es: seq<Entry>): string {
    Flatten(EntryLines(es))
  }

  /** The words of every line that is not blank. */
  function WordLines(lines: seq<string>): seq<seq<string>> {
    if lines == [] then []
    else
      var rest := WordLines(lines[1..]);
      if Words(lines[0]) == [] then rest else [Words(lines[0])] + rest
  }

  /** Lines with two words or more, read as digest and name (extra words are ignored). */
  function Readable(lines: seq<seq<string>>): seq<Entry> {
    if lines == [] then []
    else
      var rest := Readable(lines[1..]);
      if |lines[0]| >= 2 then [Entry(lines[0][0], lines[0][1])] + rest else rest
  }

  function ReadEntries(text: string): seq<Entry> {
    Readable(WordLines(Lines(text)))
  }

  lemma WordsOfWord(w: string)
    requires IsWord(w)
    ensures Words(w) == [w]
  {
    assert w + "" == w;
    LeadExact(w, "", IsSpace);
    assert w[|w|..] == "";
  }

  lemma WordsOfEntry(e: Entry)
    requires PrintableEntry(e)
    ensures Words(e.digest + "  " + e.name) == [e.digest, e.name]
  {
    var tail := "  " + e.name;
    var line := e.digest + "  " + e.name;
    assert line == e.digest + tail;
    LeadExact(e.digest, tail, IsSpace);
    assert line[|e.digest|..] == tail;
    assert IsSpace(tail[0]) && tail[1..] == " " + e.name;
    assert IsSpace(tail[1..][0]) && tail[1..][1..] == e.name;
    assert Words(tail) == Words(e.name);
    WordsOfWord(e.name);
  }

  lemma PrintEntriesCons(es: seq<Entry>)
    requires es != []
    ensures PrintEntries(es) == PrintEntry(es[0]) + PrintEntries(es[1..])
  {
    FlattenCons(EntryLines(es));
    assert EntryLines(es)[1..] == EntryLines(es[1..]);
  }

  lemma LinesOfEntry(e: Entry, rest: string)
    requires PrintableEntry(e)
    ensures Lines(PrintEntry(e) + rest) == [e.digest + "  " + e.name] + Lines(rest)
  {
    var line := e.digest + "  " + e.name;
    var text := PrintEntry(e) + rest;
    assert forall i | 0 <= i < |e.digest| :: !IsSpace(e.digest[i]);
    assert forall i | 0 <= i < |e.name| :: !IsSpace(e.name[i]);
    forall i | 0 <= i < |line|
      ensures !IsBreak(line[i])
    {
      if i >= |e.digest| + 2 {
        assert line[i] == e.name[i - |e.digest| - 2];
      }
    }
    assert text == line + ("\n" + rest);
    LeadExact(line, "\n" + rest, IsBreak);
    assert text[|line| + 1..] == rest;
  }

  function Pair(e: Entry): seq<string> {
    [e.digest, e.name]
  }

  function Pairs(es: seq<Entry>): seq<seq<string>> {
    seq(|es|, i requires 0 <= i < |es| => Pair(es[i]))
  }

  lemma ReadableCons(line: string, more: seq<string>, e: Entry, rest: seq<Entry>)
    requires Words(line) == Pair(e)
    requires Readable(WordLines(more)) == rest && WordLines(more) == Pairs(rest)
    ensures Readable(WordLines([line] + more)) == [e] + rest
    ensures WordLines([line] + more) == Pairs([e] + rest)
  {
    assert ([line] + more)[1..] == more;
    assert WordLines([line] + more) == [Pair(e)] + WordLines(more);
    assert ([Pair(e)] + WordLines(more))[1..] == WordLines(more);
    assert Pairs([e] + rest) == [Pair(e)] + Pairs(rest);
  }

  lemma PrintedLines(es: seq<Entry>)
    requires Printable(es) && es != []
    ensures Lines(PrintEntries(es)) == [es[0].digest + "  " + es[0].name] + Lines(PrintEntries(es[1..]))
    ensures PrintableEntry(es[0]) && Printable(es[1..])
  {
    PrintEntriesCons(es);
    assert es[0] in es;
    LinesOfEntry(es[0], PrintEntries(es[1..]));
  }

  /** Printing a sums file and reading it back gives the same entries in the same order. */
  lemma {:induction false} SumsRoundTrip(es: seq<Entry>)
    requires Printable(es)
    ensures ReadEntries(PrintEntries(es)) == es
    ensures WordLines(Lines(PrintEntries(es))) == Pairs(es)
  {
    if es != [] {
      PrintedLines(es);
      WordsOfEntry(es[0]);
      SumsRoundTrip(es[1..]);
      ReadableCons(es[0].digest + "  " + es[0].name, Lines(PrintEntries(es[1..])), es[0], es[1..]);
      assert es == [es[0]] + es[1..];
    }
  }
}
