/**
 The passages of a document: a byte string that identifies how it was split, and one stored
 record per distinct text, linked to the entities found in any occurrence of it.
 */
module Corpus {
  import opened Wrappers
  import opened Sequences
  import opened Domain

  type Byte = nat

  datatype Chunk = Chunk(index: nat, start: nat, end: nat, text: string, metadata: Properties)

  // What the digest looks at.
  datatype Boundary = Boundary(index: nat, start: nat, end: nat, text: string)

  function BoundaryOf(c: Chunk): Boundary {
    Boundary(c.index, c.start, c.end, c.text)
  }

  function Boundaries(chunks: seq<Chunk>): seq<Boundary> {
    seq(|chunks|, i requires 0 <= i < |chunks| => BoundaryOf(chunks[i]))
  }

  // ----- the bytes that are hashed

  const COLON: Byte := 58
  const ZERO: Byte := 48

  function Decimal(n: nat): (digits: seq<Byte>)
    ensures |digits| > 0 && forall i :: 0 <= i < |digits| ==> digits[i] != COLON
  {
    if n < 10 then [ZERO + n] else Decimal(n / 10) + [ZERO + n % 10]
  }

  function Field(n: nat): (bytes: seq<Byte>)
    ensures |bytes| > 0
  {
    Decimal(n) + [COLON]
  }

  type Encoding = string -> seq<Byte>

  // Index, start and end, then how many bytes of text follow, then those bytes: colons in the
  // text cannot be mistaken for the end of it.
  function ChunkBytes(encode: Encoding, c: Boundary): (bytes: seq<Byte>)
    ensures |bytes| > 0
  {
    Field(c.index) + (Field(c.start) + (Field(c.end) + (Field(|encode(c.text)|) + encode(c.text))))
  }

  function Preimage(encode: Encoding, chunks: seq<Boundary>): seq<Byte> {
    if chunks == [] then [] else ChunkBytes(encode, chunks[0]) + Preimage(encode, chunks[1..])
  }

  // Feed the digest chunk by chunk: a header, then the text.
  method DigestInput(encode: Encoding, chunks: seq<Chunk>) returns (fed: seq<Byte>)
    ensures fed == Preimage(encode, Boundaries(chunks))
  {
    fed := [];
    ghost var all := Boundaries(chunks);
    assert all[0..] == all;
    for i := 0 to |chunks|
      invariant FedUpTo(encode, all, i, fed)
    {
      hide FedUpTo, Decimal;
      var c := chunks[i];
      var encoded := encode(c.text);
      var header := Decimal(c.index) + [COLON] + Decimal(c.start) + [COLON] + Decimal(c.end) + [COLON] + Decimal(|encoded|) + [COLON];
      FedOneChunk(encode, all, i, fed, header);
      fed := fed + header;
      fed := fed + encoded;
    }
  }

  // What has been fed, and what is still to come, are the whole preimage.
  ghost predicate FedUpTo(encode: Encoding, all: seq<Boundary>, i: nat, fed: seq<Byte>)
    requires i <= |all|
  {
    fed + Preimage(encode, all[i..]) == Preimage(encode, all)
  }

  lemma FedOneChunk(encode: Encoding, all: seq<Boundary>, i: nat, fed: seq<Byte>, header: seq<Byte>)
    requires i < |all| && FedUpTo(encode, all, i, fed)
    requires header == Decimal(all[i].index) + [COLON] + Decimal(all[i].start) + [COLON] + Decimal(all[i].end) + [COLON]
                       + Decimal(|encode(all[i].text)|) + [COLON]
    ensures FedUpTo(encode, all, i + 1, fed + header + encode(all[i].text))
  {
    hide Decimal;
    var text := encode(all[i].text);
    assert all[i..][1..] == all[i + 1..];
    assert header + text == ChunkBytes(encode, all[i]);
    assert (fed + header + text) + Preimage(encode, all[i + 1..]) == fed + ((header + text) + Preimage(encode, all[i + 1..]));
  }

  // ----- it can be read back in one way only

  // The number a string of digits stands for.
  function ValueOf(digits: seq<Byte>): int {
    if digits == [] then 0 else 10 * ValueOf(digits[..|digits| - 1]) + digits[|digits| - 1] - ZERO
  }

  lemma {:induction false} DecimalRoundTrips(n: nat)
    ensures ValueOf(Decimal(n)) == n
  {
    var digits := Decimal(n);
    if n < 10 {
      assert digits[..0] == [];
    } else {
      DecimalRoundTrips(n / 10);
      assert digits[..|digits| - 1] == Decimal(n / 10);
    }
  }

  // A field ends at its first colon.
  lemma FieldIsReadBack(m: nat, n: nat, x: seq<Byte>, y: seq<Byte>)
    requires Field(m) + x == Field(n) + y
    ensures m == n && x == y
  {
    hide Decimal;
    var d, e := Decimal(m), Decimal(n);
    var all := Field(m) + x;
    assert all[|d|] == COLON;
    assert (Field(n) + y)[|e|] == COLON;
    assert |d| == |e|;
    assert d == all[..|d|] && e == (Field(n) + y)[..|d|];
    DecimalRoundTrips(m);
    DecimalRoundTrips(n);
    assert x == all[|d| + 1..] && y == (Field(n) + y)[|d| + 1..];
  }

  ghost predicate Injective(encode: Encoding) {
    forall a, b :: encode(a) == encode(b) ==> a == b
  }

  lemma ChunkIsReadBack(encode: Encoding, c: Boundary, d: Boundary, x: seq<Byte>, y: seq<Byte>)
    requires Injective(encode) && ChunkBytes(encode, c) + x == ChunkBytes(encode, d) + y
    ensures c == d && x == y
  {
    hide Field;
    var u, v := encode(c.text), encode(d.text);
    var end, end' := Field(|u|) + (u + x), Field(|v|) + (v + y);
    Reassociated(Field(c.index), Field(c.start), Field(c.end), Field(|u|), u, x);
    Reassociated(Field(d.index), Field(d.start), Field(d.end), Field(|v|), v, y);
    FieldIsReadBack(c.index, d.index, Field(c.start) + (Field(c.end) + end), Field(d.start) + (Field(d.end) + end'));
    FieldIsReadBack(c.start, d.start, Field(c.end) + end, Field(d.end) + end');
    FieldIsReadBack(c.end, d.end, end, end');
    FieldIsReadBack(|u|, |v|, u + x, v + y);
    assert u == (u + x)[..|u|] && v == (v + y)[..|u|];
    assert x == (u + x)[|u|..] && y == (v + y)[|u|..];
  }

  lemma Reassociated(a: seq<Byte>, b: seq<Byte>, c: seq<Byte>, d: seq<Byte>, e: seq<Byte>, x: seq<Byte>)
    ensures (a + (b + (c + (d + e)))) + x == a + (b + (c + (d + (e + x))))
  {
  }

  /** Two splits with the same preimage agree on every index, offset and text. */
  lemma {:induction false} PreimageIsUniquelyDecodable(encode: Encoding, chunks: seq<Boundary>, others: seq<Boundary>)
    requires Injective(encode)
    ensures Preimage(encode, chunks) == Preimage(encode, others) <==> chunks == others
  {
    hide ChunkBytes;
    if chunks != [] && others != [] && Preimage(encode, chunks) == Preimage(encode, others) {
      ChunkIsReadBack(encode, chunks[0], others[0], Preimage(encode, chunks[1..]), Preimage(encode, others[1..]));
      PreimageIsUniquelyDecodable(encode, chunks[1..], others[1..]);
      assert chunks == [chunks[0]] + chunks[1..] && others == [others[0]] + others[1..];
    }
  }

  // ----- stored passages

  datatype StoredChunk = StoredChunk(
    text: string, index: nat, start: nat, end: nat, entityIds: seq<EntityId>, metadata: Properties)

  type Links = map<nat, seq<EntityId>>

  // The id of a text as a passage of this document.
  type ChunkId = string -> nat

  ghost predicate Identifies(ident: ChunkId) {
    forall a, b :: ident(a) == ident(b) ==> a == b
  }

  function LinksOf(links: Links, index: nat): seq<EntityId> {
    if index in links then links[index] else []
  }

  // The entities found in any occurrence of a text.
  function FoundIn(chunks: seq<Chunk>, links: Links, text: string): seq<EntityId> {
    if chunks == [] then []
    else
      var last := chunks[|chunks| - 1];
      var earlier := FoundIn(chunks[..|chunks| - 1], links, text);
      if last.text == text then Extended(earlier, LinksOf(links, last.index)) else earlier
  }

  // The first chunk with each text, in order.
  function FirstOccurrences(chunks: seq<Chunk>): seq<Chunk> {
    if chunks == [] then []
    else
      var earlier := FirstOccurrences(chunks[..|chunks| - 1]);
      if HasText(earlier, chunks[|chunks| - 1].text) then earlier else earlier + [chunks[|chunks| - 1]]
  }

  predicate HasText(chunks: seq<Chunk>, text: string) {
    exists i :: 0 <= i < |chunks| && chunks[i].text == text
  }

  function Passage(chunks: seq<Chunk>, links: Links, first: Chunk): StoredChunk {
    StoredChunk(first.text, first.index, first.start, first.end, FoundIn(chunks, links, first.text), first.metadata)
  }

  function Passages(chunks: seq<Chunk>, links: Links): seq<StoredChunk> {
    var firsts := FirstOccurrences(chunks);
    seq(|firsts|, i requires 0 <= i < |firsts| => Passage(chunks, links, firsts[i]))
  }

  // Every passage is identified before any record is built, and an id hashes the document's id and
  // the text.
  function IdentifyingError(rules: TextRules, sourceId: string, chunks: seq<Chunk>): Option<TextError> {
    if chunks != [] && !rules.encodable(sourceId) then Some(Unencodable)
    else if exists c :: c in chunks && !rules.encodable(c.text) then Some(Unencodable)
    else None
  }

  predicate StorableRecord(rules: TextRules, c: Chunk) {
    rules.storable(c.text) && rules.storableProperties(c.metadata)
  }

  function RecordError(rules: TextRules, firsts: seq<Chunk>): Option<TextError> {
    if exists c :: c in firsts && !StorableRecord(rules, c) then Some(Unstorable) else None
  }

  // What building the passages of a split raises, if anything.
  function StoringError(rules: TextRules, sourceId: string, chunks: seq<Chunk>): Option<TextError> {
    FirstOf(IdentifyingError(rules, sourceId, chunks), RecordError(rules, FirstOccurrences(chunks)))
  }

  method StoredChunks(rules: TextRules, sourceId: string, ident: ChunkId, chunks: seq<Chunk>, links: Links)
    returns (r: Result<seq<StoredChunk>, TextError>)
    requires Identifies(ident)
    ensures r == match StoringError(rules, sourceId, chunks)
                 case Some(error) => Failure(error)
                 case None => Success(Passages(chunks, links))
  {
    var order: seq<nat> := [];
    var first: map<nat, Chunk> := map[];
    var found: map<nat, seq<EntityId>> := map[];
    for i := 0 to |chunks|
      invariant i > 0 ==> rules.encodable(sourceId)
      invariant forall j :: 0 <= j < i ==> rules.encodable(chunks[j].text)
      invariant Filed(ident, chunks[..i], links, order, first, found)
    {
      hide Filed;
      var chunk := chunks[i];
      if !rules.encodable(sourceId) || !rules.encodable(chunk.text) {
        assert chunk in chunks;
        return Failure(Unencodable);
      }
      var id := ident(chunk.text);
      FiledOneMore(ident, chunks, links, i, order, first, found);
      if id !in first {
        order, first, found := order + [id], first[id := chunk], found[id := []];
      }
      var seen := Extend(found[id], LinksOf(links, chunk.index));
      found := found[id := seen];
    }
    assert chunks[..|chunks|] == chunks;
    assert IdentifyingError(rules, sourceId, chunks).None?;
    r := BuildRecords(rules, ident, chunks, links, order, first, found);
  }

  // One record per key, in the order the keys were first written; the first refused one raises.
  method BuildRecords(rules: TextRules, ident: ChunkId, chunks: seq<Chunk>, links: Links, order: seq<nat>,
                      first: map<nat, Chunk>, found: map<nat, seq<EntityId>>)
    returns (r: Result<seq<StoredChunk>, TextError>)
    requires Filed(ident, chunks, links, order, first, found)
    ensures r == match RecordError(rules, FirstOccurrences(chunks))
                 case Some(error) => Failure(error)
                 case None => Success(Passages(chunks, links))
  {
    hide FoundIn, FirstOccurrences, StorableRecord;
    var stored := [];
    for i := 0 to |order|
      invariant |stored| == i && forall j :: 0 <= j < i ==> stored[j] == Passages(chunks, links)[j]
      invariant forall j :: 0 <= j < i ==> StorableRecord(rules, FirstOccurrences(chunks)[j])
    {
      var c := first[order[i]];
      assert FirstOccurrences(chunks)[i] == c;
      if !StorableRecord(rules, c) {
        return Failure(Unstorable);
      }
      stored := stored + [StoredChunk(c.text, c.index, c.start, c.end, found[order[i]], c.metadata)];
    }
    assert stored == Passages(chunks, links);
    return Success(stored);
  }

  method Extend(seen: seq<EntityId>, more: seq<EntityId>) returns (all: seq<EntityId>)
    ensures all == Extended(seen, more)
  {
    all := seen;
    for i := 0 to |more|
      invariant all == Extended(seen, more[..i])
    {
      assert more[..i + 1][..i] == more[..i];
      if more[i] !in all {
        all := all + [more[i]];
      }
    }
    assert more[..|more|] == more;
  }

  // The two dictionaries, and the order their keys were first written in, after some chunks.
  ghost predicate Filed(ident: ChunkId, chunks: seq<Chunk>, links: Links, order: seq<nat>, first: map<nat, Chunk>,
                        found: map<nat, seq<EntityId>>) {
    var firsts := FirstOccurrences(chunks);
    && |order| == |firsts|
    && (forall i :: 0 <= i < |order| ==>
          order[i] == ident(firsts[i].text) && order[i] in first && first[order[i]] == firsts[i]
          && order[i] in found && found[order[i]] == FoundIn(chunks, links, firsts[i].text))
    && (forall k :: k in first ==> k in order)
  }

  // One turn of the loop: a text seen before, or a new one.
  lemma FiledOneMore(ident: ChunkId, chunks: seq<Chunk>, links: Links, i: nat, order: seq<nat>, first: map<nat, Chunk>,
                     found: map<nat, seq<EntityId>>)
    requires Identifies(ident) && i < |chunks| && Filed(ident, chunks[..i], links, order, first, found)
    ensures var id, more := ident(chunks[i].text), LinksOf(links, chunks[i].index);
            if id in first then id in found && Filed(ident, chunks[..i + 1], links, order, first, found[id := Extended(found[id], more)])
            else Filed(ident, chunks[..i + 1], links, order + [id], first[id := chunks[i]], found[id := Extended([], more)])
  {
    hide Filed;
    assert chunks[..i + 1][..i] == chunks[..i];
    if ident(chunks[i].text) in first {
      FiledAgain(ident, chunks[..i], chunks[..i + 1], links, order, first, found);
    } else {
      FiledFirst(ident, chunks[..i], chunks[..i + 1], links, order, first, found);
    }
  }

  lemma FiledAgain(ident: ChunkId, earlier: seq<Chunk>, later: seq<Chunk>, links: Links, order: seq<nat>,
                   first: map<nat, Chunk>, found: map<nat, seq<EntityId>>)
    requires later != [] && later[..|later| - 1] == earlier
    requires Identifies(ident) && Filed(ident, earlier, links, order, first, found)
    requires ident(later[|later| - 1].text) in first
    ensures var last := later[|later| - 1];
            var id := ident(last.text);
            id in found && Filed(ident, later, links, order, first, found[id := Extended(found[id], LinksOf(links, last.index))])
  {
    hide Extended;
    var firsts, last := FirstOccurrences(earlier), later[|later| - 1];
    TextsOf(earlier);
    var k :| 0 <= k < |order| && order[k] == ident(last.text);
    assert firsts[k].text == last.text;
    assert FirstOccurrences(later) == firsts;
  }

  lemma FiledFirst(ident: ChunkId, earlier: seq<Chunk>, later: seq<Chunk>, links: Links, order: seq<nat>,
                   first: map<nat, Chunk>, found: map<nat, seq<EntityId>>)
    requires later != [] && later[..|later| - 1] == earlier
    requires Identifies(ident) && Filed(ident, earlier, links, order, first, found)
    requires ident(later[|later| - 1].text) !in first
    ensures var last := later[|later| - 1];
            var id := ident(last.text);
            Filed(ident, later, links, order + [id], first[id := last], found[id := Extended([], LinksOf(links, last.index))])
  {
    hide Extended, FoundIn, HasText;
    var firsts, last := FirstOccurrences(earlier), later[|later| - 1];
    assert forall i :: 0 <= i < |firsts| ==> ident(firsts[i].text) in first;
    NewText(earlier, last.text);
    NothingFound(earlier, links, last.text);
    assert FirstOccurrences(later) == firsts + [last];
    FoundOneMore(later, links, last.text);
    forall i | 0 <= i < |firsts| ensures FoundIn(later, links, firsts[i].text) == FoundIn(earlier, links, firsts[i].text) {
      FoundOneMore(later, links, firsts[i].text);
    }
  }

  lemma NewText(chunks: seq<Chunk>, text: string)
    requires forall i :: 0 <= i < |FirstOccurrences(chunks)| ==> FirstOccurrences(chunks)[i].text != text
    ensures !HasText(chunks, text) && !HasText(FirstOccurrences(chunks), text)
  {
    TextsOf(chunks);
  }

  lemma FoundOneMore(chunks: seq<Chunk>, links: Links, text: string)
    requires chunks != []
    ensures var n := |chunks| - 1;
            FoundIn(chunks, links, text) ==
            if chunks[n].text == text then Extended(FoundIn(chunks[..n], links, text), LinksOf(links, chunks[n].index))
            else FoundIn(chunks[..n], links, text)
  {
  }

  // ----- what is stored

  lemma {:induction false} TextsOf(chunks: seq<Chunk>)
    ensures forall text :: HasText(FirstOccurrences(chunks), text) <==> HasText(chunks, text)
    ensures forall i, j :: 0 <= i < j < |FirstOccurrences(chunks)| ==>
              FirstOccurrences(chunks)[i].text != FirstOccurrences(chunks)[j].text
  {
    if chunks != [] {
      var n := |chunks| - 1;
      TextsOf(chunks[..n]);
      var earlier, last := FirstOccurrences(chunks[..n]), chunks[n];
      forall text ensures HasText(chunks, text) <==> HasText(chunks[..n], text) || last.text == text {
        OneMoreText(chunks, text);
      }
      forall text ensures HasText(earlier + [last], text) <==> HasText(earlier, text) || last.text == text {
        assert (earlier + [last])[..|earlier|] == earlier;
        OneMoreText(earlier + [last], text);
      }
    }
  }

  lemma OneMoreText(chunks: seq<Chunk>, text: string)
    requires chunks != []
    ensures var n := |chunks| - 1;
            HasText(chunks, text) <==> HasText(chunks[..n], text) || chunks[n].text == text
  {
    var n := |chunks| - 1;
    if i :| 0 <= i < n && chunks[i].text == text {
      assert chunks[..n][i].text == text;
    }
  }

  lemma {:induction false} NothingFound(chunks: seq<Chunk>, links: Links, text: string)
    requires !HasText(chunks, text)
    ensures FoundIn(chunks, links, text) == []
  {
    if chunks != [] {
      OneMoreText(chunks, text);
      NothingFound(chunks[..|chunks| - 1], links, text);
    }
  }

  // `e` was found in an occurrence of `text`.
  ghost predicate LinkedTo(chunks: seq<Chunk>, links: Links, text: string, e: EntityId) {
    exists i :: 0 <= i < |chunks| && chunks[i].text == text && e in LinksOf(links, chunks[i].index)
  }

  lemma {:induction false} FoundAreLinked(chunks: seq<Chunk>, links: Links, text: string, e: EntityId)
    ensures e in FoundIn(chunks, links, text) <==> LinkedTo(chunks, links, text, e)
    ensures NoRepeats(FoundIn(chunks, links, text))
  {
    if chunks != [] {
      var n := |chunks| - 1;
      FoundAreLinked(chunks[..n], links, text, e);
      ExtendedHolds(FoundIn(chunks[..n], links, text), LinksOf(links, chunks[n].index), e);
      LinkedOneMore(chunks, links, text, e);
    }
  }

  lemma LinkedOneMore(chunks: seq<Chunk>, links: Links, text: string, e: EntityId)
    requires chunks != []
    ensures var n := |chunks| - 1;
            LinkedTo(chunks, links, text, e) <==>
            LinkedTo(chunks[..n], links, text, e) || (chunks[n].text == text && e in LinksOf(links, chunks[n].index))
  {
    var n := |chunks| - 1;
    if i :| 0 <= i < n && chunks[i].text == text && e in LinksOf(links, chunks[i].index) {
      assert chunks[..n][i].text == text;
    }
  }

  // No text is stored twice, and a text is stored exactly when some chunk has it.
  ghost predicate OnePerText(chunks: seq<Chunk>, stored: seq<StoredChunk>) {
    && (forall i, j :: 0 <= i < j < |stored| ==> stored[i].text != stored[j].text)
    && (forall c :: c in chunks ==> exists i :: 0 <= i < |stored| && stored[i].text == c.text)
  }

  // Each record is the first occurrence of its text, carries exactly the entities found in any
  // occurrence, once each.
  ghost predicate FaithfulRecord(chunks: seq<Chunk>, links: Links, record: StoredChunk) {
    && (exists i :: FirstWith(chunks, i, record))
    && NoRepeats(record.entityIds)
    && (forall e :: e in record.entityIds <==> LinkedTo(chunks, links, record.text, e))
  }

  ghost predicate FirstWith(chunks: seq<Chunk>, i: nat, record: StoredChunk) {
    && i < |chunks| && chunks[i] == Chunk(record.index, record.start, record.end, record.text, record.metadata)
    && forall j :: 0 <= j < i ==> chunks[j].text != record.text
  }

  /** Passages lose no text and no link, and invent none. */
  lemma PassagesAreFaithful(chunks: seq<Chunk>, links: Links)
    ensures OnePerText(chunks, Passages(chunks, links))
    ensures forall record :: record in Passages(chunks, links) ==> FaithfulRecord(chunks, links, record)
  {
    hide FoundIn, FirstOccurrences, FirstWith, LinkedTo, NoRepeats;
    var firsts, stored := FirstOccurrences(chunks), Passages(chunks, links);
    TextsOf(chunks);
    forall c | c in chunks ensures exists i :: 0 <= i < |stored| && stored[i].text == c.text {
      assert HasText(chunks, c.text);
      var i :| 0 <= i < |firsts| && firsts[i].text == c.text;
      assert stored[i].text == c.text;
    }
    forall k | 0 <= k < |firsts| ensures FaithfulRecord(chunks, links, stored[k]) {
      var i := FirstsComeFirst(chunks, k, stored[k]);
      forall e ensures e in stored[k].entityIds <==> LinkedTo(chunks, links, stored[k].text, e)
        ensures NoRepeats(stored[k].entityIds)
      {
        FoundAreLinked(chunks, links, stored[k].text, e);
      }
      FoundAreLinked(chunks, links, stored[k].text, 0);
    }
  }

  lemma {:induction false} FirstsComeFirst(chunks: seq<Chunk>, k: nat, record: StoredChunk) returns (i: nat)
    requires k < |FirstOccurrences(chunks)|
    requires FirstOccurrences(chunks)[k] == Chunk(record.index, record.start, record.end, record.text, record.metadata)
    ensures FirstWith(chunks, i, record)
  {
    var n := |chunks| - 1;
    var earlier := FirstOccurrences(chunks[..n]);
    if k < |earlier| {
      i := FirstsComeFirst(chunks[..n], k, record);
      assert forall j :: 0 <= j < i ==> chunks[..n][j] == chunks[j];
    } else {
      i := n;
      TextsOf(chunks[..n]);
      forall j | 0 <= j < n ensures chunks[j].text != record.text {
        assert chunks[..n][j] == chunks[j];
      }
    }
  }

  // ----- when the passages cannot be stored

  ghost predicate FirstAt(chunks: seq<Chunk>, i: nat) {
    i < |chunks| && forall j :: 0 <= j < i ==> chunks[j].text != chunks[i].text
  }

  ghost predicate Opens(chunks: seq<Chunk>, i: nat, c: Chunk) {
    FirstAt(chunks, i) && chunks[i] == c
  }

  lemma OpensOneMore(chunks: seq<Chunk>, i: nat, c: Chunk)
    requires chunks != []
    ensures var n := |chunks| - 1;
            Opens(chunks, i, c) <==> Opens(chunks[..n], i, c) || (i == n && chunks[n] == c && !HasText(chunks[..n], c.text))
  {
    var n := |chunks| - 1;
    assert forall j :: 0 <= j < n ==> chunks[..n][j] == chunks[j];
  }

  lemma {:induction false} FirstOccurrencesAre(chunks: seq<Chunk>, c: Chunk)
    ensures c in FirstOccurrences(chunks) <==> exists i: nat :: Opens(chunks, i, c)
  {
    if chunks == [] {
      assert forall i: nat :: !Opens(chunks, i, c);
    } else {
      hide Opens, HasText;
      var n := |chunks| - 1;
      FirstOccurrencesAre(chunks[..n], c);
      TextsOf(chunks[..n]);
      OpensOneMore(chunks, n, c);
      if i: nat :| Opens(chunks, i, c) {
        OpensOneMore(chunks, i, c);
      }
      if i: nat :| Opens(chunks[..n], i, c) {
        OpensOneMore(chunks, i, c);
      }
    }
  }

  // The document's id can be hashed if there is anything to identify, every text can be stored, and
  // so can the metadata of the first chunk with each text.
  ghost predicate AllStorable(rules: TextRules, sourceId: string, chunks: seq<Chunk>) {
    && (chunks != [] ==> rules.encodable(sourceId))
    && (forall i :: 0 <= i < |chunks| ==> rules.storable(chunks[i].text))
    && forall i: nat :: FirstAt(chunks, i) ==> rules.storableProperties(chunks[i].metadata)
  }

  /** Building the passages raises exactly when something in them cannot be stored. */
  lemma StoringFailsExactlyWhen(rules: TextRules, sourceId: string, chunks: seq<Chunk>)
    requires rules.Conform()
    ensures StoringError(rules, sourceId, chunks).Some? <==> !AllStorable(rules, sourceId, chunks)
    ensures StoringError(rules, sourceId, chunks) == Some(Unencodable) <==>
            chunks != [] && (!rules.encodable(sourceId) || exists i :: 0 <= i < |chunks| && !rules.encodable(chunks[i].text))
  {
    hide FirstOccurrences;
    var firsts := FirstOccurrences(chunks);
    forall i: nat | FirstAt(chunks, i) ensures chunks[i] in firsts {
      FirstOccurrencesAre(chunks, chunks[i]);
      assert Opens(chunks, i, chunks[i]);
    }
    forall c | c in firsts ensures exists i: nat :: Opens(chunks, i, c) {
      FirstOccurrencesAre(chunks, c);
    }
    TextsOf(chunks);
    forall i | 0 <= i < |chunks| ensures exists k :: 0 <= k < |firsts| && firsts[k].text == chunks[i].text {
      assert HasText(chunks, chunks[i].text);
    }
    assert forall k :: 0 <= k < |firsts| ==> firsts[k] in firsts;
  }
}
