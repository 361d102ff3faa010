/** Contact files: the vCard text written for one patient or for the
    whole list, the line-by-line vCard reader and the import that splits a
    file into cards; and the CSV import and export once the CSV library has
    turned text into records or rows. */
module Contacts {
  import opened Wrappers
  import opened Lists
  import opened Text
  import opened Records

  // ---------------------------------------------------------------------
  // Writing vCards

  const Begin := "BEGIN:VCARD"
  const NL := "\n"

  /** The six lines after `BEGIN:VCARD`, a missing email or note written
      with an empty value. */
  function BodyLines(c: Client): (ls: seq<string>)
    ensures |ls| == 6
  {
    ["VERSION:3.0", "FN:" + c.name, "TEL;TYPE=CELL:" + c.phone,
     "EMAIL:" + OrEmpty(c.email), "NOTE:" + OrEmpty(c.notes), "END:VCARD"]
  }

  function CardLines(c: Client): seq<string> {
    [Begin] + BodyLines(c)
  }

  /** No field of the client holds a line break. */
  predicate NoNewlines(c: Client) {
    '\n' !in c.name && '\n' !in c.phone && '\n' !in OrEmpty(c.email) && '\n' !in OrEmpty(c.notes)
  }

  /** `generateVCard`: the card's seven lines joined by line breaks; when
      no field holds a line break, splitting the text at line breaks gives
      the seven lines back, in their fixed order. */
  function GenerateVCard(c: Client): (text: string)
    ensures NoNewlines(c) ==> Split(text, NL) == CardLines(c)
    ensures NoNewlines(c) ==> |Split(text, NL)| == 7 && Split(text, NL)[0] == Begin
                              && Split(text, NL)[2] == "FN:" + c.name
  {
    var text := Join(CardLines(c), NL);
    if NoNewlines(c) then
      BodyLinesClean(c);
      SplitJoin(CardLines(c), '\n');
      text
    else text
  }

  /** The lines of a card built from a client without line breaks hold
      none either. */
  lemma {:induction false} BodyLinesClean(c: Client)
    requires NoNewlines(c)
    ensures forall i :: 0 <= i < |BodyLines(c)| ==> '\n' !in BodyLines(c)[i]
    ensures forall i :: 0 <= i < |CardLines(c)| ==> '\n' !in CardLines(c)[i]
  {
    NotInJoin("FN:", c.name, '\n');
    NotInJoin("TEL;TYPE=CELL:", c.phone, '\n');
    NotInJoin("EMAIL:", OrEmpty(c.email), '\n');
    NotInJoin("NOTE:", OrEmpty(c.notes), '\n');
    var b := BodyLines(c);
    assert forall i :: 0 <= i < |b| ==> '\n' !in b[i];
    assert CardLines(c) == [Begin] + b;
  }

  function Cards(cs: seq<Client>): (ts: seq<string>)
    ensures |ts| == |cs|
  {
    seq(|cs|, i requires 0 <= i < |cs| => GenerateVCard(cs[i]))
  }

  /** `exportAllVCards`: the cards of all clients joined by line breaks. */
  function ExportAllVCards(cs: seq<Client>): string {
    Join(Cards(cs), NL)
  }

  // ---------------------------------------------------------------------
  // Reading a vCard

  /** What `parseVCard` found; a field with no matching line is absent. */
  datatype Parsed = Parsed(name: Option<string>, phone: Option<string>, email: Option<string>, notes: Option<string>)

  const Nothing := Parsed(None, None, None, None)

  datatype Field = NameField | PhoneField | EmailField | NotesField

  function Prefix(f: Field): (p: string)
    ensures |p| > 0
  {
    match f
    case NameField => "FN:"
    case PhoneField => "TEL;"
    case EmailField => "EMAIL:"
    case NotesField => "NOTE:"
  }

  function Get(p: Parsed, f: Field): Option<string> {
    match f
    case NameField => p.name
    case PhoneField => p.phone
    case EmailField => p.email
    case NotesField => p.notes
  }

  /** `line.split(':')[1]`: the text between the first and the second
      colon, absent when the line has no colon. */
  function SecondField(line: string): Option<string> {
    var parts := Split(line, ":");
    if |parts| >= 2 then Some(parts[1]) else None
  }

  /** The value a line starting with the field's prefix gives the field. */
  function LineValue(f: Field, line: string): Option<string>
    requires StartsWith(line, Prefix(f))
  {
    match f
    case NameField => Some(line[3..])
    case PhoneField => SecondField(line)
    case EmailField => Some(line[6..])
    case NotesField => Some(line[5..])
  }

  /** One pass of the `forEach`: every field whose prefix starts the line
      takes the line's value, the others are kept. */
  function ReadLine(p: Parsed, line: string): (q: Parsed)
    ensures forall f :: Get(q, f) == if StartsWith(line, Prefix(f)) then LineValue(f, line) else Get(p, f)
  {
    var p1 := if StartsWith(line, "FN:") then p.(name := LineValue(NameField, line)) else p;
    var p2 := if StartsWith(line, "TEL;") then p1.(phone := LineValue(PhoneField, line)) else p1;
    var p3 := if StartsWith(line, "EMAIL:") then p2.(email := LineValue(EmailField, line)) else p2;
    if StartsWith(line, "NOTE:") then p3.(notes := LineValue(NotesField, line)) else p3
  }

  /** `i` is the last line starting with `pre`. */
  predicate LastWith(lines: seq<string>, pre: string, i: int) {
    0 <= i < |lines| && StartsWith(lines[i], pre)
    && forall j :: i < j < |lines| ==> !StartsWith(lines[j], pre)
  }

  /** The lines read in order: a field is set by the last line carrying
      its prefix, and left as it was when no line does. */
  function ReadLines(lines: seq<string>, p: Parsed): (q: Parsed)
    ensures forall f :: (forall i :: 0 <= i < |lines| ==> !StartsWith(lines[i], Prefix(f))) ==> Get(q, f) == Get(p, f)
    ensures forall f, i :: LastWith(lines, Prefix(f), i) ==> Get(q, f) == LineValue(f, lines[i])
    decreases |lines|
  {
    if |lines| == 0 then p
    else
      var q := ReadLines(lines[1..], ReadLine(p, lines[0]));
      assert forall j :: 0 < j < |lines| ==> lines[j] == lines[1..][j - 1];
      assert forall f, i :: LastWith(lines, Prefix(f), i) && i > 0 ==> LastWith(lines[1..], Prefix(f), i - 1);
      q
  }

  /** The lines of a text: its pieces between line breaks. */
  function Lines(text: string): (ls: seq<string>)
    ensures |ls| > 0
  {
    Split(text, NL)
  }

  /** `parseVCard`: the text read line by line. */
  function ParseVCard(text: string): (p: Parsed)
    ensures forall f :: (forall i :: 0 <= i < |Lines(text)| ==> !StartsWith(Lines(text)[i], Prefix(f)))
                        ==> Get(p, f).None?
    ensures forall f, i :: LastWith(Lines(text), Prefix(f), i) ==> Get(p, f) == LineValue(f, Lines(text)[i])
  {
    NoFieldsYet();
    ReadLines(Lines(text), Nothing)
  }

  lemma {:induction false} NoFieldsYet()
    ensures forall f :: Get(Nothing, f).None?
  {
  }

  // ---------------------------------------------------------------------
  // Importing vCards

  /** A card is imported when its chunk is not blank and it names both a
      name and a phone. */
  predicate Accepts(chunk: string) {
    !IsBlank(chunk) && Present(ParseVCard(chunk).name) && Present(ParseVCard(chunk).phone)
  }

  /** `{ id, ...patient, status: 'active' }`. */
  function CardClient(p: Parsed, id: Id): (c: Client)
    requires p.name.Some? && p.phone.Some?
    ensures c.id == id && c.status == Active
    ensures c.name == p.name.value && c.phone == p.phone.value && c.email == p.email && c.notes == p.notes
  {
    Client(id, p.name.value, p.phone.value, p.email, p.notes, None, Active, None, [], 0)
  }

  function NotBlank(chunk: string): bool {
    !IsBlank(chunk)
  }

  /** The client an accepted chunk becomes. */
  function CardOf(chunk: string, id: Id): Client
    requires Accepts(chunk)
  {
    CardClient(ParseVCard(chunk), id)
  }

  /** The `forEach` over the chunks; `newId(k)` is the id of the `k`-th
      client added. */
  function ImportChunks(chunks: seq<string>, newId: nat -> Id, next: nat): (r: seq<Client>)
    ensures |r| <= Count(chunks, NotBlank)
    ensures forall i :: 0 <= i < |r| ==> r[i].id == newId(next + i) && r[i].status == Active
                                         && |r[i].name| > 0 && |r[i].phone| > 0
    decreases |chunks|
  {
    if |chunks| == 0 then []
    else
      var ch := chunks[0];
      if Accepts(ch) then
        var p := ParseVCard(ch);
        [CardClient(p, newId(next))] + ImportChunks(chunks[1..], newId, next + 1)
      else ImportChunks(chunks[1..], newId, next)
  }

  /** The `i`-th client is the `i`-th accepted chunk's card. */
  predicate CardsOfAccepted(r: seq<Client>, accepted: seq<string>, newId: nat -> Id, next: nat) {
    |r| == |accepted|
    && forall i :: 0 <= i < |r| ==> Accepts(accepted[i]) && r[i] == CardOf(accepted[i], newId(next + i))
  }

  /** Every accepted chunk, and only those, becomes a client, in the order
      of the chunks, carrying what the chunk's lines say. */
  lemma {:induction false} ImportChunksAccepted(chunks: seq<string>, newId: nat -> Id, next: nat)
    ensures CardsOfAccepted(ImportChunks(chunks, newId, next), Filter(chunks, Accepts), newId, next)
    decreases |chunks|
  {
    if |chunks| > 0 {
      var n := next + (if Accepts(chunks[0]) then 1 else 0);
      ImportChunksAccepted(chunks[1..], newId, n);
      AcceptedStep(chunks, Accepts);
      if Accepts(chunks[0]) {
        ImportCardCons(ImportChunks(chunks, newId, next), ImportChunks(chunks[1..], newId, n),
                       Filter(chunks, Accepts), Filter(chunks[1..], Accepts), newId, next);
      }
    }
  }

  lemma {:induction false} ImportCardCons(r: seq<Client>, rest: seq<Client>, f: seq<string>, g: seq<string>,
                                          newId: nat -> Id, next: nat)
    requires CardsOfAccepted(rest, g, newId, next + 1)
    requires |f| > 0 && Accepts(f[0]) && f == [f[0]] + g && r == [CardOf(f[0], newId(next))] + rest
    ensures CardsOfAccepted(r, f, newId, next)
  {
    forall i | 1 <= i < |r|
      ensures Accepts(f[i]) && r[i] == CardOf(f[i], newId(next + i))
    {
      assert r[i] == rest[i - 1] && f[i] == g[i - 1];
      assert next + i == (next + 1) + (i - 1);
    }
  }

  /** Filtering a non-empty sequence: the first element, when kept, then
      the filtered rest. */
  lemma {:induction false} AcceptedStep(chunks: seq<string>, p: string -> bool)
    requires |chunks| > 0
    ensures Filter(chunks, p) == (if p(chunks[0]) then [chunks[0]] else []) + Filter(chunks[1..], p)
  {
  }

  /** `handleVCardImport`: the file split at every `BEGIN:VCARD`, blank
      chunks skipped, cards without a name or a phone dropped. */
  function VCardImport(text: string, newId: nat -> Id): (r: seq<Client>)
    ensures |r| <= Count(Split(text, Begin), NotBlank)
    ensures forall i :: 0 <= i < |r| ==> r[i].id == newId(i) && r[i].status == Active
                                         && |r[i].name| > 0 && |r[i].phone| > 0
    ensures CardsOfAccepted(r, Filter(Split(text, Begin), Accepts), newId, 0)
  {
    ImportChunksAccepted(Split(text, Begin), newId, 0);
    ImportChunks(Split(text, Begin), newId, 0)
  }

  // ---------------------------------------------------------------------
  // Export then import

  /** A client whose card survives the round trip: a name and a phone, no
      line break and no `BEGIN:VCARD` in any field, and no colon in the
      phone. */
  predicate Exportable(c: Client) {
    |c.name| > 0 && |c.phone| > 0 && NoNewlines(c) && ':' !in c.phone
    && !Contains(c.name, Begin) && !Contains(c.phone, Begin)
    && !Contains(OrEmpty(c.email), Begin) && !Contains(OrEmpty(c.notes), Begin)
  }

  /** The lines of one chunk the import sees between two `BEGIN:VCARD`s:
      the rest of the `BEGIN:VCARD` line, the six card lines and, for every
      card but the last, the empty start of the next card's line. */
  function ChunkLines(c: Client, last: bool): seq<string> {
    [""] + BodyLines(c) + (if last then [] else [""])
  }

  function Chunk(c: Client, last: bool): string {
    Join(ChunkLines(c, last), NL)
  }

  function Chunks(cs: seq<Client>): (ts: seq<string>)
    ensures |ts| == |cs|
  {
    seq(|cs|, i requires 0 <= i < |cs| => Chunk(cs[i], i == |cs| - 1))
  }

  /** The card text after `BEGIN:VCARD`, and the text after the first
      `BEGIN:VCARD` of the export. */
  lemma {:induction false} CardAfterBegin(c: Client)
    ensures GenerateVCard(c) == Begin + Chunk(c, true)
    ensures Chunk(c, false) == Chunk(c, true) + NL
  {
    var b := BodyLines(c);
    assert CardLines(c)[1..] == b;
    assert ([""] + b)[1..] == b;
    assert ChunkLines(c, true) == [""] + b;
    assert ChunkLines(c, false) == ([""] + b) + [""];
    JoinSnoc([""] + b, "", NL);
  }

  /** The part of the export after its first `BEGIN:VCARD`. */
  function ExportRest(cs: seq<Client>): string
    requires |cs| > 0
  {
    if |cs| == 1 then Chunk(cs[0], true) else Chunk(cs[0], false) + ExportAllVCards(cs[1..])
  }

  lemma {:induction false} ExportUnfold(cs: seq<Client>)
    requires |cs| > 0
    ensures ExportAllVCards(cs) == Begin + ExportRest(cs)
  {
    var ts := Cards(cs);
    var card := GenerateVCard(cs[0]);
    assert ts[0] == card;
    CardAfterBegin(cs[0]);
    if |cs| > 1 {
      var rest := Join(Cards(cs[1..]), NL);
      assert ts[1..] == Cards(cs[1..]);
      assert Join(ts, NL) == card + NL + rest;
      AppendAssoc(Begin, Chunk(cs[0], true) + NL, rest);
      AppendAssoc(Begin, Chunk(cs[0], true), NL);
    } else {
      assert Join(ts, NL) == card;
    }
  }

  /** A text in which `B` does not occur holds no `BEGIN:VCARD`. */
  lemma {:induction false} NoBeginWithoutB(s: string)
    requires 'B' !in s
    ensures !Contains(s, Begin)
  {
    ContainsHead(s, Begin);
  }

  /** Nor does a field behind a label without `B`. */
  lemma {:induction false} NoBeginAfterLabel(tag: string, v: string)
    requires 'B' !in tag && !Contains(v, Begin)
    ensures !Contains(tag + v, Begin)
  {
    ContainsAfterPrefix(tag, v, Begin);
  }

  /** No line of a card holds `BEGIN:VCARD` when no field does. */
  lemma {:induction false} BodyLinesNoBegin(c: Client)
    requires Exportable(c)
    ensures forall i :: 0 <= i < 6 ==> !Contains(BodyLines(c)[i], Begin)
  {
    var b := BodyLines(c);
    forall i | 0 <= i < 6
      ensures !Contains(b[i], Begin)
    {
      if i == 0 {
        NoBeginWithoutB(b[0]);
      } else if i == 1 {
        NoBeginAfterLabel("FN:", c.name);
      } else if i == 2 {
        NoBeginAfterLabel("TEL;TYPE=CELL:", c.phone);
      } else if i == 3 {
        NoBeginAfterLabel("EMAIL:", OrEmpty(c.email));
      } else if i == 4 {
        NoBeginAfterLabel("NOTE:", OrEmpty(c.notes));
      } else {
        NoBeginWithoutB(b[5]);
      }
    }
  }

  /** A chunk, and a chunk followed by all of `BEGIN:VCARD` but its last
      letter, hold no `BEGIN:VCARD`. */
  lemma {:induction false} ChunkNoBegin(c: Client, tail: string)
    requires Exportable(c) && !Contains(tail, Begin)
    ensures !Contains(Join([""] + BodyLines(c) + [tail], NL), Begin)
    ensures !Contains(Chunk(c, true), Begin)
  {
    var b := BodyLines(c);
    BodyLinesNoBegin(c);
    ContainsLength("", Begin);
    JoinedNoBegin(b, [tail]);
    JoinedNoBegin(b, []);
    assert [""] + b + [] == [""] + b;
    assert ChunkLines(c, true) == [""] + b;
  }

  /** Lines none of which holds `BEGIN:VCARD`, joined by line breaks after
      an empty first line, hold none either. */
  lemma {:induction false} JoinedNoBegin(b: seq<string>, tail: seq<string>)
    requires forall i :: 0 <= i < |b| ==> !Contains(b[i], Begin)
    requires forall i :: 0 <= i < |tail| ==> !Contains(tail[i], Begin)
    requires !Contains("", Begin)
    ensures !Contains(Join([""] + b + tail, NL), Begin)
  {
    var ls := [""] + b + tail;
    forall i | 0 <= i < |ls|
      ensures !Contains(ls[i], Begin)
    {
      if 1 <= i < |b| + 1 {
        assert ls[i] == b[i - 1];
      } else if i >= |b| + 1 {
        assert ls[i] == tail[i - 1 - |b|];
      }
    }
    ContainsJoin(ls, '\n', Begin);
  }

  /** Splitting the rest of the export at `BEGIN:VCARD` gives one chunk per
      client. */
  lemma {:induction false} SplitExportRest(cs: seq<Client>)
    requires |cs| > 0 && forall i :: 0 <= i < |cs| ==> Exportable(cs[i])
    ensures Split(ExportRest(cs), Begin) == Chunks(cs)
    decreases |cs|
  {
    var c := cs[0];
    if |cs| == 1 {
      ContainsLength(Begin[..10], Begin);
      ChunkNoBegin(c, Begin[..10]);
      SplitWithout(Chunk(c, true), Begin);
    } else {
      var rest := cs[1..];
      assert forall i :: 0 <= i < |rest| ==> rest[i] == cs[i + 1];
      SplitExportRest(rest);
      ChunkThenBegin(c);
      ExportRestStep(cs);
      SplitAfter(Chunk(c, false), Begin, ExportRest(rest));
      ChunksStep(cs);
    }
  }

  /** A chunk followed by all of `BEGIN:VCARD` but its last letter holds
      no `BEGIN:VCARD`, so the split cuts right after the chunk. */
  lemma {:induction false} ChunkThenBegin(c: Client)
    requires Exportable(c)
    ensures !Contains(Chunk(c, false) + Begin[..|Begin| - 1], Begin)
  {
    var b := BodyLines(c);
    ContainsLength(Begin[..10], Begin);
    ChunkNoBegin(c, Begin[..10]);
    CardAfterBegin(c);
    assert ChunkLines(c, true) == [""] + b;
    JoinSnoc([""] + b, Begin[..10], NL);
  }

  lemma {:induction false} ExportRestStep(cs: seq<Client>)
    requires |cs| > 1
    ensures ExportRest(cs) == Chunk(cs[0], false) + Begin + ExportRest(cs[1..])
  {
    ExportUnfold(cs[1..]);
  }

  lemma {:induction false} ChunksStep(cs: seq<Client>)
    requires |cs| > 1
    ensures Chunks(cs) == [Chunk(cs[0], false)] + Chunks(cs[1..])
  {
    assert forall i :: 0 <= i < |cs[1..]| ==> cs[1..][i] == cs[i + 1];
  }

  /** Splitting the export at `BEGIN:VCARD` gives an empty first piece and
      then one chunk per client. */
  lemma {:induction false} SplitExport(cs: seq<Client>)
    requires forall i :: 0 <= i < |cs| ==> Exportable(cs[i])
    ensures Split(ExportAllVCards(cs), Begin) == [""] + Chunks(cs)
  {
    if |cs| == 0 {
      assert ExportAllVCards(cs) == "";
    } else {
      ExportUnfold(cs);
      SplitExportRest(cs);
      ContainsLength("" + Begin[..10], Begin);
      SplitAfter("", Begin, ExportRest(cs));
      assert "" + Begin + ExportRest(cs) == Begin + ExportRest(cs);
    }
  }

  /** A character that differs from the prefix's rules the prefix out. */
  lemma {:induction false} NotPrefixAt(s: string, p: string, k: nat)
    requires k < |s| && k < |p| && s[k] != p[k]
    ensures !StartsWith(s, p)
  {
    assert |p| <= |s| ==> s[..|p|][k] == s[k];
  }

  /** Which prefix each line of a chunk starts with. */
  lemma {:induction false} ChunkPrefixes(c: Client, last: bool, f: Field, j: int)
    requires 0 <= j < |ChunkLines(c, last)|
    ensures StartsWith(ChunkLines(c, last)[j], Prefix(f)) <==>
      (j == 2 && f == NameField) || (j == 3 && f == PhoneField) || (j == 4 && f == EmailField) || (j == 5 && f == NotesField)
  {
    var ls := ChunkLines(c, last);
    var s := ls[j];
    var p := Prefix(f);
    if j == 0 || j == 7 {
      assert s == "";
    } else {
      var b := BodyLines(c);
      assert s == b[j - 1];
      if (j == 2 && f == NameField) || (j == 3 && f == PhoneField) || (j == 4 && f == EmailField) || (j == 5 && f == NotesField) {
        assert s[..|p|] == p;
      } else if j == 6 && f == EmailField {
        NotPrefixAt(s, p, 1);
      } else {
        NotPrefixAt(s, p, 0);
      }
    }
  }

  /** The phone line's text between its first and second colon is the
      phone, when the phone holds no colon. */
  lemma {:induction false} PhoneLineValue(phone: string)
    requires ':' !in phone
    ensures SecondField("TEL;TYPE=CELL:" + phone) == Some(phone)
  {
    var head := "TEL;TYPE=CELL";
    assert ':' !in head;
    SecondFieldAfter(head, phone);
    assert head + ":" + phone == "TEL;TYPE=CELL:" + phone;
  }

  /** The second field of `head:value` is the value when neither holds a
      colon. */
  lemma {:induction false} SecondFieldAfter(head: string, value: string)
    requires ':' !in head && ':' !in value
    ensures SecondField(head + ":" + value) == Some(value)
  {
    ContainsHead(head, ":");
    ContainsHead(value, ":");
    assert head + ":"[..0] == head;
    SplitAfter(head, ":", value);
    SplitWithout(value, ":");
  }

  /** Reading a chunk recovers the client's name, phone, email and notes,
      a missing email or note as the empty string. */
  lemma {:induction false} ChunkParse(c: Client, last: bool)
    requires Exportable(c)
    ensures ParseVCard(Chunk(c, last)) == Parsed(Some(c.name), Some(c.phone), Some(OrEmpty(c.email)), Some(OrEmpty(c.notes)))
  {
    var ls := ChunkLines(c, last);
    ChunkLinesRead(c, last);
    ChunkFieldLines(c, last);
    ChunkLineValues(c, last);
    var p := ParseVCard(Chunk(c, last));
    assert Get(p, NameField) == Some(c.name);
    assert Get(p, PhoneField) == Some(c.phone);
    assert Get(p, EmailField) == Some(OrEmpty(c.email));
    assert Get(p, NotesField) == Some(OrEmpty(c.notes));
  }

  /** Splitting a chunk at its newlines gives back its lines. */
  lemma {:induction false} ChunkLinesRead(c: Client, last: bool)
    requires Exportable(c)
    ensures Lines(Chunk(c, last)) == ChunkLines(c, last)
  {
    var ls := ChunkLines(c, last);
    var b := BodyLines(c);
    BodyLinesClean(c);
    forall i | 0 <= i < |ls|
      ensures '\n' !in ls[i]
    {
      if 1 <= i < 7 {
        assert ls[i] == b[i - 1];
      }
    }
    SplitJoin(ls, '\n');
  }

  /** Each field's prefix starts exactly one line of a chunk. */
  lemma {:induction false} ChunkFieldLines(c: Client, last: bool)
    ensures LastWith(ChunkLines(c, last), Prefix(NameField), 2)
    ensures LastWith(ChunkLines(c, last), Prefix(PhoneField), 3)
    ensures LastWith(ChunkLines(c, last), Prefix(EmailField), 4)
    ensures LastWith(ChunkLines(c, last), Prefix(NotesField), 5)
  {
    var ls := ChunkLines(c, last);
    forall f, j | 0 <= j < |ls|
      ensures StartsWith(ls[j], Prefix(f)) <==>
        (j == 2 && f == NameField) || (j == 3 && f == PhoneField) || (j == 4 && f == EmailField) || (j == 5 && f == NotesField)
    {
      ChunkPrefixes(c, last, f, j);
    }
  }

  /** The values the field lines of a chunk carry. */
  lemma {:induction false} ChunkLineValues(c: Client, last: bool)
    requires Exportable(c)
    requires LastWith(ChunkLines(c, last), Prefix(NameField), 2)
    requires LastWith(ChunkLines(c, last), Prefix(PhoneField), 3)
    requires LastWith(ChunkLines(c, last), Prefix(EmailField), 4)
    requires LastWith(ChunkLines(c, last), Prefix(NotesField), 5)
    ensures LineValue(NameField, ChunkLines(c, last)[2]) == Some(c.name)
    ensures LineValue(PhoneField, ChunkLines(c, last)[3]) == Some(c.phone)
    ensures LineValue(EmailField, ChunkLines(c, last)[4]) == Some(OrEmpty(c.email))
    ensures LineValue(NotesField, ChunkLines(c, last)[5]) == Some(OrEmpty(c.notes))
  {
    var ls := ChunkLines(c, last);
    assert ls[2] == "FN:" + c.name && ls[3] == "TEL;TYPE=CELL:" + c.phone;
    assert ls[4] == "EMAIL:" + OrEmpty(c.email) && ls[5] == "NOTE:" + OrEmpty(c.notes);
    PhoneLineValue(c.phone);
  }

  /** A chunk is not blank: its second character starts `VERSION`. */
  lemma {:induction false} ChunkNotBlank(c: Client, last: bool)
    ensures !IsBlank(Chunk(c, last))
  {
    var rest := BodyLines(c) + (if last then [] else [""]);
    assert ChunkLines(c, last) == [""] + rest;
    assert Chunk(c, last) == "" + NL + Join(rest, NL);
    assert Join(rest, NL) == "VERSION:3.0" + NL + Join(rest[1..], NL);
    assert Chunk(c, last)[1] == 'V';
  }

  /** An imported client carries the exported client's fields back. */
  predicate Reimported(r: Client, c: Client) {
    r.name == c.name && r.phone == c.phone
    && r.email == Some(OrEmpty(c.email)) && r.notes == Some(OrEmpty(c.notes))
  }

  /** The pointwise agreement of an import with its clients, extended by
      one client in front. */
  lemma {:induction false} ImportedCons(r: seq<Client>, tail: seq<Client>, cs: seq<Client>)
    requires |cs| > 0 && |r| == |cs| && r[1..] == tail
    requires Reimported(r[0], cs[0])
    requires forall i :: 0 <= i < |cs| - 1 ==> Reimported(tail[i], cs[1..][i])
    ensures forall i :: 0 <= i < |cs| ==> Reimported(r[i], cs[i])
  {
    forall i | 1 <= i < |cs|
      ensures Reimported(r[i], cs[i])
    {
      assert r[i] == tail[i - 1] && cs[i] == cs[1..][i - 1];
    }
  }

  /** The chunks of exportable clients import as those clients. */
  lemma {:induction false} ImportChunksOfExport(cs: seq<Client>, newId: nat -> Id, next: nat)
    requires forall i :: 0 <= i < |cs| ==> Exportable(cs[i])
    ensures var r := ImportChunks(Chunks(cs), newId, next);
      |r| == |cs| && forall i :: 0 <= i < |cs| ==> Reimported(r[i], cs[i])
    decreases |cs|
  {
    if |cs| > 0 {
      var c := cs[0];
      var rest := cs[1..];
      ImportChunksOfExport(rest, newId, next + 1);
      var ch := Chunks(cs);
      ChunksStepAny(cs);
      ChunkParse(c, |cs| == 1);
      ChunkNotBlank(c, |cs| == 1);
      var tail := ImportChunks(Chunks(rest), newId, next + 1);
      ImportAccepted(ch, newId, next);
      var r := ImportChunks(ch, newId, next);
      assert r == [CardClient(ParseVCard(ch[0]), newId(next))] + tail;
      ImportedCons(r, tail, cs);
    }
  }

  /** The chunks of a non-empty list: the first client's, then the rest's. */
  lemma {:induction false} ChunksStepAny(cs: seq<Client>)
    requires |cs| > 0
    ensures Chunks(cs)[0] == Chunk(cs[0], |cs| == 1) && Chunks(cs)[1..] == Chunks(cs[1..])
  {
  }

  /** An accepted first chunk becomes the first client, with the next id. */
  lemma {:induction false} ImportAccepted(chunks: seq<string>, newId: nat -> Id, next: nat)
    requires |chunks| > 0 && Accepts(chunks[0])
    ensures ImportChunks(chunks, newId, next)
            == [CardClient(ParseVCard(chunks[0]), newId(next))] + ImportChunks(chunks[1..], newId, next + 1)
  {
  }

  /** Importing the vCard export gives back every exportable client in
      order: name, phone, email and notes (a missing one as the empty
      string), with status active and a fresh id. */
  lemma {:induction false} VCardRoundTrip(cs: seq<Client>, newId: nat -> Id)
    requires forall i :: 0 <= i < |cs| ==> Exportable(cs[i])
    ensures var r := VCardImport(ExportAllVCards(cs), newId);
      |r| == |cs| &&
      forall i :: 0 <= i < |cs| ==>
        (r[i].name == cs[i].name && r[i].phone == cs[i].phone
         && r[i].email == Some(OrEmpty(cs[i].email)) && r[i].notes == Some(OrEmpty(cs[i].notes))
         && r[i].status == Active && r[i].id == newId(i))
  {
    SplitExport(cs);
    var chunks := [""] + Chunks(cs);
    assert !Accepts(chunks[0]);
    assert chunks[1..] == Chunks(cs);
    ImportChunksOfExport(cs, newId, 0);
  }

  // ---------------------------------------------------------------------
  // CSV with a header row (the patient list's import and export)

  /** A record the CSV library read under the header row; a missing
      column is absent. */
  datatype CsvRecord = CsvRecord(name: Option<string>, phone: Option<string>, email: Option<string>, notes: Option<string>)

  predicate CsvValid(r: CsvRecord) {
    Present(r.name) && Present(r.phone)
  }

  /** The client a valid record becomes. */
  function CsvClient(r: CsvRecord, id: Id): (c: Client)
    requires CsvValid(r)
    ensures c.id == id && c.status == Active && c.name == r.name.value && c.phone == r.phone.value
    ensures c.email == Some(OrEmpty(r.email)) && c.notes == Some(OrEmpty(r.notes))
  {
    Client(id, r.name.value, r.phone.value, Some(OrEmpty(r.email)), Some(OrEmpty(r.notes)), None, Active, None, [], 0)
  }

  /** `handleCSVImport` once parsed: the records with a name and a phone,
      in order, each made a client with the `i`-th fresh id. */
  function CsvImport(records: seq<CsvRecord>, newId: nat -> Id): (r: seq<Client>)
    ensures |r| == Count(records, CsvValid)
    ensures forall i :: 0 <= i < |r| ==>
      (|r[i].name| > 0 && |r[i].phone| > 0 && r[i].status == Active && r[i].id == newId(i))
    ensures forall i :: 0 <= i < |r| ==>
      (exists j :: 0 <= j < |records| && records[j].name == Some(r[i].name) && records[j].phone == Some(r[i].phone))
    ensures forall i :: 0 <= i < |r| ==> var v := Filter(records, CsvValid)[i];
      r[i].name == v.name.value && r[i].phone == v.phone.value
      && r[i].email == Some(OrEmpty(v.email)) && r[i].notes == Some(OrEmpty(v.notes))
  {
    var valid := Filter(records, CsvValid);
    var r := seq(|valid|, i requires 0 <= i < |valid| => CsvClient(valid[i], newId(i)));
    forall i | 0 <= i < |r|
      ensures exists j :: 0 <= j < |records| && records[j].name == Some(r[i].name) && records[j].phone == Some(r[i].phone)
    {
      assert valid[i] in records && CsvValid(valid[i]);
      var j :| 0 <= j < |records| && records[j] == valid[i];
      assert r[i] == CsvClient(valid[i], newId(i));
      assert records[j].name == Some(r[i].name) && records[j].phone == Some(r[i].phone);
    }
    forall i | 0 <= i < |r|
      ensures |r[i].name| > 0 && |r[i].phone| > 0 && r[i].status == Active && r[i].id == newId(i)
    {
      assert CsvValid(valid[i]);
      assert r[i] == CsvClient(valid[i], newId(i));
    }
    r
  }

  /** `exportToCSV`'s projection: per client, in order, its name, phone,
      and email and notes with a missing one as the empty string. */
  function CsvExport(cs: seq<Client>): (rs: seq<CsvRecord>)
    ensures |rs| == |cs|
    ensures forall i :: 0 <= i < |cs| ==>
      rs[i] == CsvRecord(Some(cs[i].name), Some(cs[i].phone), Some(OrEmpty(cs[i].email)), Some(OrEmpty(cs[i].notes)))
  {
    seq(|cs|, i requires 0 <= i < |cs| =>
      CsvRecord(Some(cs[i].name), Some(cs[i].phone), Some(OrEmpty(cs[i].email)), Some(OrEmpty(cs[i].notes))))
  }

  /** Importing the export's records gives back every client with a name
      and a phone, in order, with its email and notes (a missing one as the
      empty string). */
  lemma {:induction false} CsvRoundTrip(cs: seq<Client>, newId: nat -> Id)
    requires forall i :: 0 <= i < |cs| ==> |cs[i].name| > 0 && |cs[i].phone| > 0
    ensures var r := CsvImport(CsvExport(cs), newId);
      |r| == |cs| &&
      forall i :: 0 <= i < |cs| ==>
        (r[i].name == cs[i].name && r[i].phone == cs[i].phone && r[i].id == newId(i)
         && r[i].email == Some(OrEmpty(cs[i].email)) && r[i].notes == Some(OrEmpty(cs[i].notes)))
  {
    var rs := CsvExport(cs);
    assert forall i :: 0 <= i < |rs| ==> CsvValid(rs[i]);
    FilterAll(rs, CsvValid);
    var r := CsvImport(rs, newId);
    forall i | 0 <= i < |cs|
      ensures r[i] == CsvClient(rs[i], newId(i))
    {
    }
  }

  // ---------------------------------------------------------------------
  // CSV rows (the stand-alone import component)

  const NoValidRowsMessage := "No valid patients found in the CSV file. Please check the format."

  datatype RowsOutcome = NoValidRows | Imported(clients: seq<Client>)

  /** A row with at least two cells whose first two are not blank. */
  predicate RowOk(row: seq<string>) {
    |row| >= 2 && !IsBlank(row[0]) && !IsBlank(row[1])
  }

  /** The client a row becomes; `now` is the import's creation time. */
  function RowClient(row: seq<string>, id: Id, now: int): (c: Client)
    requires RowOk(row)
    ensures c.id == id && c.name == Trim(row[0]) && c.phone == Trim(row[1])
    ensures |c.name| > 0 && |c.phone| > 0 && c.status == Active && c.createdAt == Some(now)
    ensures c.email == Some("") && c.notes == Some("") && c.dateOfBirth == Some("") && c.treatmentHistory == []
  {
    Client(id, Trim(row[0]), Trim(row[1]), Some(""), Some(""), Some(""), Active, Some(now), [], 0)
  }

  function RowClients(rows: seq<seq<string>>, newId: nat -> Id, now: int): (r: seq<Client>)
    ensures |r| == |Filter(rows, RowOk)|
    ensures forall i :: 0 <= i < |r| ==> r[i] == RowClient(Filter(rows, RowOk)[i], newId(i), now)
  {
    var ok := Filter(rows, RowOk);
    seq(|ok|, i requires 0 <= i < |ok| => RowClient(ok[i], newId(i), now))
  }

  /** The rows after the header. */
  function DataRows(rows: seq<seq<string>>): seq<seq<string>> {
    if |rows| == 0 then [] else rows[1..]
  }

  /** The import component's `complete` callback: the first row is a
      header and is skipped, the rows with a non-blank name and phone
      become clients with trimmed name and phone, and no such row is an
      error. */
  function ImportRows(rows: seq<seq<string>>, newId: nat -> Id, now: int): (o: RowsOutcome)
    ensures o.NoValidRows? <==> forall i :: 1 <= i < |rows| ==> !RowOk(rows[i])
    ensures o.Imported? ==> |o.clients| == |Filter(DataRows(rows), RowOk)| > 0
    ensures o.Imported? ==> forall i :: 0 <= i < |o.clients| ==>
      o.clients[i] == RowClient(Filter(DataRows(rows), RowOk)[i], newId(i), now)
  {
    var data := DataRows(rows);
    var r := RowClients(data, newId, now);
    assert forall i :: 1 <= i < |rows| ==> rows[i] == data[i - 1];
    if |r| == 0 then
      assert forall i :: 0 <= i < |data| ==> !RowOk(data[i]);
      NoValidRows
    else
      var k :| 0 <= k < |Filter(data, RowOk)|;
      assert Filter(data, RowOk)[k] in data;
      Imported(r)
  }

  /** The header row is never imported, whatever it holds. */
  lemma {:induction false} HeaderIgnored(h1: seq<string>, h2: seq<string>, data: seq<seq<string>>, newId: nat -> Id, now: int)
    ensures ImportRows([h1] + data, newId, now) == ImportRows([h2] + data, newId, now)
  {
    assert DataRows([h1] + data) == data == DataRows([h2] + data);
  }

  /** The name-and-phone table of some clients, one row each. */
  function NamePhoneRows(cs: seq<Client>): (rows: seq<seq<string>>)
    ensures |rows| == |cs|
    ensures forall i :: 0 <= i < |cs| ==> rows[i] == [cs[i].name, cs[i].phone]
  {
    seq(|cs|, i requires 0 <= i < |cs| => [cs[i].name, cs[i].phone])
  }

  /** No white space at either end of a non-empty text. */
  predicate Trimmed(s: string) {
    |s| > 0 && !IsSpace(s[0]) && !IsSpace(s[|s| - 1])
  }

  /** The row of a client with a trimmed name and phone is accepted and
      gives them back unchanged. */
  lemma {:induction false} TrimmedRow(c: Client)
    requires Trimmed(c.name) && Trimmed(c.phone)
    ensures RowOk([c.name, c.phone]) && Trim(c.name) == c.name && Trim(c.phone) == c.phone
  {
    TrimKeeps(c.name);
    TrimKeeps(c.phone);
  }

  /** Below any header, the name-and-phone table of clients whose name and
      phone are trimmed and non-empty imports as those names and phones, in
      order. */
  lemma {:induction false} RowsRoundTrip(header: seq<string>, cs: seq<Client>, newId: nat -> Id, now: int)
    requires |cs| > 0
    requires forall i :: 0 <= i < |cs| ==> Trimmed(cs[i].name) && Trimmed(cs[i].phone)
    ensures var o := ImportRows([header] + NamePhoneRows(cs), newId, now);
      o.Imported? && |o.clients| == |cs| &&
      forall i :: 0 <= i < |cs| ==> (o.clients[i].name == cs[i].name && o.clients[i].phone == cs[i].phone)
  {
    var data := NamePhoneRows(cs);
    var rows := [header] + data;
    assert DataRows(rows) == data;
    forall i | 0 <= i < |cs|
      ensures RowOk(data[i]) && Trim(data[i][0]) == cs[i].name && Trim(data[i][1]) == cs[i].phone
    {
      TrimmedRow(cs[i]);
    }
    FilterAll(data, RowOk);
    assert RowOk(rows[1]);
    var o := ImportRows(rows, newId, now);
    forall i | 0 <= i < |cs|
      ensures o.clients[i].name == cs[i].name && o.clients[i].phone == cs[i].phone
    {
      assert o.clients[i] == RowClient(data[i], newId(i), now);
    }
  }
}
