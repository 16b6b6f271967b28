/** The KEY=value tag block of FLAC, Ogg Vorbis and Opus: parsing, printing,
    replacing the edited fields and reading them back. */
module VorbisComments {
  import opened ByteOrder
  import opened Filtering
  import opened TagText

  datatype Comment = Comment(vendor: Bytes, fields: seq<Bytes>) {
    /** The lengths that the 32-bit counts of the format can hold. */
    predicate Fits() {
      && |vendor| < Pow256(4)
      && |fields| < Pow256(4)
      && forall i :: 0 <= i < |fields| ==> |fields[i]| < Pow256(4)
    }
  }

  // ----- Parsing and printing -----

  /** A length-prefixed text and what follows it. */
  function ReadText(b: Bytes): Result<(Bytes, Bytes)> {
    if |b| < 4 then Err(Malformed)
    else
      var n := GetLE(b[..4]);
      if n > |b| - 4 then Err(Malformed) else Ok((b[4..4 + n], b[4 + n..]))
  }

  function ReadFields(b: Bytes, count: nat): Result<(seq<Bytes>, Bytes)> {
    if count == 0 then Ok(([], b))
    else
      var (field, rest) :- ReadText(b);
      var (fields, end) :- ReadFields(rest, count - 1);
      Ok(([field] + fields, end))
  }

  /** The comment at the start of b and the bytes after it. */
  function Parse(b: Bytes): Result<(Comment, Bytes)> {
    var (vendor, rest) :- ReadText(b);
    if |rest| < 4 then Err(Malformed)
    else
      var count, body := GetLE(rest[..4]), rest[4..];
      if count > |body| / 4 then Err(Malformed)
      else
        var (fields, end) :- ReadFields(body, count);
        Ok((Comment(vendor, fields), end))
  }

  function PrintText(text: Bytes): Bytes {
    PutLE(|text|, 4) + text
  }

  function PrintFields(fields: seq<Bytes>): Bytes {
    if fields == [] then [] else PrintText(fields[0]) + PrintFields(fields[1..])
  }

  function Print(c: Comment): Bytes {
    PrintText(c.vendor) + (PutLE(|c.fields|, 4) + PrintFields(c.fields))
  }

  lemma ReadTextPrinted(text: Bytes, rest: Bytes)
    requires |text| < Pow256(4)
    ensures ReadText(PrintText(text) + rest) == Ok((text, rest))
  {
    var b := PrintText(text) + rest;
    GetPutLE(|text|, 4);
    assert b[..4] == PutLE(|text|, 4);
    assert b[4..4 + |text|] == text;
    assert b[4 + |text|..] == rest;
  }

  lemma ReadTextIsPrinted(b: Bytes)
    requires ReadText(b).Ok?
    ensures var (text, rest) := ReadText(b).value;
      |text| < Pow256(4) && b == PrintText(text) + rest
  {
    PutGetLE(b[..4]);
  }

  lemma {:induction false} ReadFieldsPrinted(fields: seq<Bytes>, rest: Bytes)
    requires forall i :: 0 <= i < |fields| ==> |fields[i]| < Pow256(4)
    ensures ReadFields(PrintFields(fields) + rest, |fields|) == Ok((fields, rest))
    ensures |PrintFields(fields)| / 4 >= |fields|
  {
    if fields == [] {
      assert PrintFields(fields) + rest == rest;
    } else {
      var tail := PrintFields(fields[1..]);
      assert PrintFields(fields) + rest == PrintText(fields[0]) + (tail + rest);
      ReadTextPrinted(fields[0], tail + rest);
      ReadFieldsPrinted(fields[1..], rest);
      assert [fields[0]] + fields[1..] == fields;
    }
  }

  lemma {:induction false} ReadFieldsIsPrinted(b: Bytes, count: nat)
    requires ReadFields(b, count).Ok?
    ensures var (fields, rest) := ReadFields(b, count).value;
      && |fields| == count
      && (forall i :: 0 <= i < |fields| ==> |fields[i]| < Pow256(4))
      && b == PrintFields(fields) + rest
  {
    if count > 0 {
      ReadTextIsPrinted(b);
      var (field, rest) := ReadText(b).value;
      ReadFieldsIsPrinted(rest, count - 1);
      var (fields, end) := ReadFields(rest, count - 1).value;
      hide ReadText, PrintText, ReadFields;
      assert ([field] + fields)[1..] == fields;
      Regroup(PrintText(field), PrintFields(fields), end);
    }
  }

  /** Parsing a printed comment returns it, with what follows left unread. */
  lemma ParsePrinted(c: Comment, rest: Bytes)
    requires c.Fits()
    ensures Parse(Print(c) + rest) == Ok((c, rest))
  {
    var body := PrintFields(c.fields) + rest;
    var afterVendor := PutLE(|c.fields|, 4) + body;
    assert Print(c) + rest == PrintText(c.vendor) + afterVendor;
    ReadTextPrinted(c.vendor, afterVendor);
    GetPutLE(|c.fields|, 4);
    assert afterVendor[..4] == PutLE(|c.fields|, 4);
    assert afterVendor[4..] == body;
    ReadFieldsPrinted(c.fields, rest);
  }

  /** Only printed comments parse: printing what was parsed, followed by the
      unread bytes, is the input byte for byte. */
  lemma ParsedIsPrinted(b: Bytes)
    requires Parse(b).Ok?
    ensures var (c, rest) := Parse(b).value;
      c.Fits() && b == Print(c) + rest
  {
    ReadTextIsPrinted(b);
    var (vendor, rest) := ReadText(b).value;
    var count, body := GetLE(rest[..4]), rest[4..];
    PutGetLE(rest[..4]);
    ReadFieldsIsPrinted(body, count);
    var (fields, end) := ReadFields(body, count).value;
    assert rest == PutLE(count, 4) + body;
    JoinPrinted(PrintText(vendor), PutLE(count, 4), PrintFields(fields), end);
  }

  lemma JoinPrinted(a: Bytes, b: Bytes, c: Bytes, d: Bytes)
    ensures a + (b + (c + d)) == (a + (b + c)) + d
  {
  }

  lemma {:induction false} PrintedFieldsAreLonger(fields: seq<Bytes>)
    ensures 4 * |fields| <= |PrintFields(fields)|
    ensures forall i :: 0 <= i < |fields| ==> |fields[i]| <= |PrintFields(fields)|
  {
    if fields != [] {
      PrintedFieldsAreLonger(fields[1..]);
    }
  }

  /** A comment whose print is not absurdly long fits the format. */
  lemma ShortPrintFits(c: Comment)
    requires |Print(c)| < Pow256(4)
    ensures c.Fits()
  {
    PrintedFieldsAreLonger(c.fields);
  }

  /** What does not parse is malformed, and nothing else. */
  lemma ParseErrs(b: Bytes)
    requires Parse(b).Err?
    ensures Parse(b) == Err(Malformed)
  {
    if ReadText(b).Ok? && |ReadText(b).value.1| >= 4 {
      var rest := ReadText(b).value.1;
      FieldsErr(rest[4..], GetLE(rest[..4]));
    }
  }

  lemma {:induction false} FieldsErr(b: Bytes, count: nat)
    ensures ReadFields(b, count).Err? ==> ReadFields(b, count) == Err(Malformed)
  {
    hide GetLE;
    if count > 0 && ReadText(b).Ok? {
      FieldsErr(ReadText(b).value.1, count - 1);
    }
  }

  method ParseComment(b: Bytes) returns (r: Result<(Comment, Bytes)>)
    ensures r == Parse(b)
  {
    var vendor := ReadText(b);
    if vendor.Err? || |vendor.value.1| < 4 {
      return Err(Malformed);
    }
    var count := GetLE(vendor.value.1[..4]);
    var rest := vendor.value.1[4..];
    if count > |rest| / 4 {
      return Err(Malformed);
    }
    ghost var body := rest;
    var fields: seq<Bytes> := [];
    assert Prepend([], ReadFields(body, count)) == ReadFields(body, count) by {
      if ReadFields(body, count).Ok? {
        assert [] + ReadFields(body, count).value.0 == ReadFields(body, count).value.0;
      }
    }
    for i := 0 to count
      invariant ReadFields(body, count) == Prepend(fields, ReadFields(rest, count - i))
    {
      var field := ReadText(rest);
      if field.Err? {
        return Err(Malformed);
      }
      ghost var later := ReadFields(field.value.1, count - i - 1);
      if later.Ok? {
        assert fields + ([field.value.0] + later.value.0) == (fields + [field.value.0]) + later.value.0;
      }
      fields, rest := fields + [field.value.0], field.value.1;
    }
    assert fields + [] == fields;
    r := Ok((Comment(vendor.value.0, fields), rest));
  }

  ghost function Prepend(fields: seq<Bytes>, r: Result<(seq<Bytes>, Bytes)>): Result<(seq<Bytes>, Bytes)> {
    if r.Err? then r else Ok((fields + r.value.0, r.value.1))
  }

  lemma {:induction false} PrintFieldsAppend(a: seq<Bytes>, b: seq<Bytes>)
    ensures PrintFields(a + b) == PrintFields(a) + PrintFields(b)
  {
    if a == [] {
      assert a + b == b;
    } else {
      assert (a + b)[1..] == a[1..] + b;
      PrintFieldsAppend(a[1..], b);
    }
  }

  method PrintComment(c: Comment) returns (out: Bytes)
    ensures out == Print(c)
  {
    out := PutLE(|c.vendor|, 4);
    out := out + c.vendor;
    out := out + PutLE(|c.fields|, 4);
    ghost var head := out;
    for i := 0 to |c.fields|
      invariant out == head + PrintFields(c.fields[..i])
    {
      assert c.fields[..i + 1] == c.fields[..i] + [c.fields[i]];
      PrintFieldsAppend(c.fields[..i], [c.fields[i]]);
      assert PrintFields([c.fields[i]]) == PrintText(c.fields[i]);
      out := out + PutLE(|c.fields[i]|, 4);
      out := out + c.fields[i];
    }
    assert c.fields[..|c.fields|] == c.fields;
  }

  // ----- Fields -----

  /** Where the first '=' of a field is, or its length. */
  function CutAt(field: Bytes): (i: nat)
    ensures i <= |field| && 61 !in field[..i]
    ensures i < |field| ==> field[i] == 61
  {
    if field == [] || field[0] == 61 then 0 else 1 + CutAt(field[1..])
  }

  function Key(u: Unicode, field: Bytes): Bytes {
    u.upper(field[..CutAt(field)])
  }

  function Value(field: Bytes): Bytes {
    if CutAt(field) < |field| then field[CutAt(field) + 1..] else []
  }

  /** The keys a rewrite replaces: the written ones, and aliases that other
      tools use for the same fields. */
  datatype ManagedKey =
    | Title | Artist | Album | AlbumArtist | Composer | Genre | Date | TrackNumber | DiscNumber | CommentText
    | AlbumArtistAlias | YearAlias | DescriptionAlias

  type PlainText = k: string | forall i :: 0 <= i < |k| ==> 32 <= k[i] as int < 97 && k[i] != '=' witness ""

  function Name(k: ManagedKey): PlainText {
    match k
    case Title => "TITLE"
    case Artist => "ARTIST"
    case Album => "ALBUM"
    case AlbumArtist => "ALBUMARTIST"
    case Composer => "COMPOSER"
    case Genre => "GENRE"
    case Date => "DATE"
    case TrackNumber => "TRACKNUMBER"
    case DiscNumber => "DISCNUMBER"
    case CommentText => "COMMENT"
    case AlbumArtistAlias => "ALBUM ARTIST"
    case YearAlias => "YEAR"
    case DescriptionAlias => "DESCRIPTION"
  }

  function KeyBytes(k: ManagedKey): Bytes {
    Ascii(Name(k))
  }

  lemma KeyBytesInjective(k: ManagedKey, l: ManagedKey)
    requires KeyBytes(k) == KeyBytes(l)
    ensures k == l
  {
    AsciiInjective(Name(k), Name(l));
    assert Name(k) == Name(l);
    assert |Name(k)| == |Name(l)| && |Name(k)| > 2;
    assert Name(k)[0] == Name(l)[0] && Name(k)[1] == Name(l)[1];
  }

  function ManagedKeys(): set<Bytes> {
    set k: ManagedKey :: KeyBytes(k)
  }

  /** The fields whose key is not managed, in order. */
  function Kept(u: Unicode, managed: set<Bytes>, fields: seq<Bytes>): seq<Bytes> {
    if fields == [] then []
    else (if Key(u, fields[0]) in managed then [] else [fields[0]]) + Kept(u, managed, fields[1..])
  }

  /** One written field, or none for an absent value. */
  function Added(key: Bytes, value: Bytes): seq<Bytes> {
    if value == [] then [] else [key + [61] + value]
  }

  function AllAdded(edits: seq<(Bytes, Bytes)>): seq<Bytes> {
    if edits == [] then [] else Added(edits[0].0, edits[0].1) + AllAdded(edits[1..])
  }

  /** The written fields, in the order they are written. */
  function Edits(m: Metadata): seq<(ManagedKey, Bytes)> {
    [(Title, m.title), (Artist, m.artist), (Album, m.album), (AlbumArtist, m.albumArtist), (Composer, m.composer),
     (Genre, m.genre), (Date, YearText(m.year)), (TrackNumber, NumberText(m.trackNumber)),
     (DiscNumber, NumberText(m.discNumber)), (CommentText, m.comment)]
  }

  function Coded(edits: seq<(ManagedKey, Bytes)>): (coded: seq<(Bytes, Bytes)>)
    ensures |coded| == |edits|
    ensures forall i :: 0 <= i < |edits| ==> coded[i] == (KeyBytes(edits[i].0), edits[i].1)
  {
    seq(|edits|, i requires 0 <= i < |edits| => (KeyBytes(edits[i].0), edits[i].1))
  }

  /** The comment with the edited fields replaced by m. */
  function With(u: Unicode, c: Comment, m: Metadata): Comment {
    Comment(c.vendor, AllAdded(Coded(Edits(m))) + Kept(u, ManagedKeys(), c.fields))
  }

  /** The value of the first field with this key. */
  function FirstValue(u: Unicode, fields: seq<Bytes>, key: Bytes): Bytes {
    if fields == [] then []
    else if Key(u, fields[0]) == key then Value(fields[0])
    else FirstValue(u, fields[1..], key)
  }

  predicate HasKey(u: Unicode, fields: seq<Bytes>, key: Bytes) {
    exists i :: 0 <= i < |fields| && Key(u, fields[i]) == key
  }

  function Get(u: Unicode, c: Comment, key: ManagedKey): Bytes {
    FirstValue(u, c.fields, KeyBytes(key))
  }

  function OrElse(a: Bytes, b: Bytes): Bytes {
    if a != [] then a else b
  }

  /** The metadata described by the text found under each managed key. */
  function Assemble(u: Unicode, text: ManagedKey -> Bytes): Metadata {
    Metadata(
      text(Title), text(Artist), text(Album), OrElse(text(AlbumArtist), text(AlbumArtistAlias)),
      text(Composer), text(Genre), OrElse(text(CommentText), text(DescriptionAlias)),
      LeadingValue(u, OrElse(text(Date), text(YearAlias)), 4),
      LeadingValue(u, text(TrackNumber), 4), LeadingValue(u, text(DiscNumber), 4))
  }

  /** The metadata a comment carries. */
  function Read(u: Unicode, c: Comment): Metadata {
    Assemble(u, k => Get(u, c, k))
  }

  lemma {:induction false} FirstValueAppend(u: Unicode, a: seq<Bytes>, b: seq<Bytes>, key: Bytes)
    ensures FirstValue(u, a + b, key) == if HasKey(u, a, key) then FirstValue(u, a, key) else FirstValue(u, b, key)
  {
    if a == [] {
      assert a + b == b;
    } else {
      assert (a + b)[1..] == a[1..] + b;
      FirstValueAppend(u, a[1..], b, key);
      if Key(u, a[0]) != key {
        assert forall i :: 0 < i < |a| ==> a[i] == a[1..][i - 1];
      }
    }
  }

  lemma {:induction false} NoKeyNoValue(u: Unicode, fields: seq<Bytes>, key: Bytes)
    requires !HasKey(u, fields, key)
    ensures FirstValue(u, fields, key) == []
  {
    if fields != [] {
      assert Key(u, fields[0]) != key;
      assert forall i :: 0 <= i < |fields| - 1 ==> fields[1..][i] == fields[i + 1];
      NoKeyNoValue(u, fields[1..], key);
    }
  }

  /** A key that is read back as it was written. */
  predicate Plain(u: Unicode, key: Bytes) {
    61 !in key && u.upper(key) == key
  }

  lemma AddedField(u: Unicode, key: Bytes, value: Bytes)
    requires Plain(u, key)
    ensures var field := key + [61] + value;
      Key(u, field) == key && Value(field) == value
  {
    var field := key + [61] + value;
    assert field[..|key|] == key;
    CutAtFirst(field, |key|);
  }

  lemma CutAtFirst(field: Bytes, i: nat)
    requires i < |field| && field[i] == 61 && 61 !in field[..i]
    ensures CutAt(field) == i
  {
    var j := CutAt(field);
    assert j <= i;
  }

  function Lookup(edits: seq<(Bytes, Bytes)>, key: Bytes): Bytes {
    if edits == [] then [] else if edits[0].0 == key then edits[0].1 else Lookup(edits[1..], key)
  }

  ghost predicate DistinctKeys(edits: seq<(Bytes, Bytes)>) {
    forall i, j :: 0 <= i < j < |edits| ==> edits[i].0 != edits[j].0
  }

  ghost predicate PlainManaged(u: Unicode, managed: set<Bytes>, edits: seq<(Bytes, Bytes)>) {
    forall i :: 0 <= i < |edits| ==> Plain(u, edits[i].0) && edits[i].0 in managed
  }

  /** Reading key from written fields followed by fields without that key. */
  lemma {:induction false} ReadAdded(u: Unicode, edits: seq<(Bytes, Bytes)>, kept: seq<Bytes>, key: Bytes)
    requires DistinctKeys(edits) && !HasKey(u, kept, key)
    requires forall i :: 0 <= i < |edits| ==> Plain(u, edits[i].0)
    ensures FirstValue(u, AllAdded(edits) + kept, key) == Lookup(edits, key)
  {
    if edits == [] {
      assert AllAdded(edits) + kept == kept;
      NoKeyNoValue(u, kept, key);
    } else {
      var (k, value) := edits[0];
      var rest := AllAdded(edits[1..]) + kept;
      assert AllAdded(edits) + kept == Added(k, value) + rest;
      ReadAdded(u, edits[1..], kept, key);
      if k == key {
        LookupAbsent(edits[1..], key);
      }
      if value == [] {
        assert Added(k, value) + rest == rest;
      } else {
        AddedField(u, k, value);
        assert (Added(k, value) + rest)[1..] == rest;
      }
    }
  }

  lemma {:induction false} LookupAbsent(edits: seq<(Bytes, Bytes)>, key: Bytes)
    requires forall i :: 0 <= i < |edits| ==> edits[i].0 != key
    ensures Lookup(edits, key) == []
  {
    if edits != [] {
      LookupAbsent(edits[1..], key);
    }
  }

  lemma {:induction false} LookupPresent(edits: seq<(Bytes, Bytes)>, i: nat)
    requires i < |edits| && DistinctKeys(edits)
    ensures Lookup(edits, edits[i].0) == edits[i].1
  {
    if i > 0 {
      LookupPresent(edits[1..], i - 1);
    }
  }

  lemma {:induction false} KeptIsUnmanaged(u: Unicode, managed: set<Bytes>, fields: seq<Bytes>, key: Bytes)
    requires key in managed
    ensures !HasKey(u, Kept(u, managed, fields), key)
  {
    if fields != [] {
      KeptIsUnmanaged(u, managed, fields[1..], key);
      var rest := Kept(u, managed, fields[1..]);
      assert forall i :: 0 < i < |rest| + 1 ==> ([fields[0]] + rest)[i] == rest[i - 1];
    }
  }

  lemma {:induction false} KeptAppend(u: Unicode, managed: set<Bytes>, a: seq<Bytes>, b: seq<Bytes>)
    ensures Kept(u, managed, a + b) == Kept(u, managed, a) + Kept(u, managed, b)
  {
    if a == [] {
      assert a + b == b;
    } else {
      assert (a + b)[1..] == a[1..] + b;
      KeptAppend(u, managed, a[1..], b);
    }
  }

  lemma {:induction false} KeptTwice(u: Unicode, managed: set<Bytes>, fields: seq<Bytes>)
    ensures Kept(u, managed, Kept(u, managed, fields)) == Kept(u, managed, fields)
  {
    if fields != [] {
      KeptTwice(u, managed, fields[1..]);
      var rest := Kept(u, managed, fields[1..]);
      if Key(u, fields[0]) in managed {
        assert Kept(u, managed, fields) == rest;
      } else {
        assert Kept(u, managed, fields)[1..] == rest;
      }
    }
  }

  lemma {:induction false} NoEditIsKept(u: Unicode, managed: set<Bytes>, edits: seq<(Bytes, Bytes)>)
    requires PlainManaged(u, managed, edits)
    ensures Kept(u, managed, AllAdded(edits)) == []
  {
    if edits != [] {
      NoEditIsKept(u, managed, edits[1..]);
      var first := Added(edits[0].0, edits[0].1);
      KeptAppend(u, managed, first, AllAdded(edits[1..]));
      if first != [] {
        AddedField(u, edits[0].0, edits[0].1);
      }
    }
  }

  /** A rewrite finds its own fields managed, and so does the next one. */
  lemma {:induction false} KeptAfterEdits(u: Unicode, managed: set<Bytes>, edits: seq<(Bytes, Bytes)>, fields: seq<Bytes>)
    requires PlainManaged(u, managed, edits)
    ensures Kept(u, managed, AllAdded(edits) + Kept(u, managed, fields)) == Kept(u, managed, fields)
  {
    KeptAppend(u, managed, AllAdded(edits), Kept(u, managed, fields));
    NoEditIsKept(u, managed, edits);
    KeptTwice(u, managed, fields);
  }

  lemma KeyIsPlain(u: Unicode, k: ManagedKey)
    requires u.Agrees()
    ensures Plain(u, KeyBytes(k))
  {
    var b := KeyBytes(k);
    assert forall i :: 0 <= i < |b| ==> b[i] < 128 && !IsLower(b[i]) && b[i] != 61;
  }

  lemma CodedIsPlain(u: Unicode, edits: seq<(ManagedKey, Bytes)>)
    requires u.Agrees()
    ensures PlainManaged(u, ManagedKeys(), Coded(edits))
  {
    forall i | 0 <= i < |edits|
      ensures Plain(u, Coded(edits)[i].0) && Coded(edits)[i].0 in ManagedKeys()
    {
      KeyIsPlain(u, edits[i].0);
    }
  }

  ghost predicate DistinctEdits(edits: seq<(ManagedKey, Bytes)>) {
    forall i, j :: 0 <= i < j < |edits| ==> edits[i].0 != edits[j].0
  }

  lemma CodedIsDistinct(edits: seq<(ManagedKey, Bytes)>)
    requires DistinctEdits(edits)
    ensures DistinctKeys(Coded(edits))
  {
    forall i, j | 0 <= i < j < |edits|
      ensures Coded(edits)[i].0 != Coded(edits)[j].0
    {
      if KeyBytes(edits[i].0) == KeyBytes(edits[j].0) {
        KeyBytesInjective(edits[i].0, edits[j].0);
      }
    }
  }

  /** What a written comment has under each managed key: the edit's value, or
      nothing when no edit has the key. */
  lemma GetWritten(u: Unicode, edits: seq<(ManagedKey, Bytes)>, fields: seq<Bytes>, key: ManagedKey, i: nat)
    requires u.Agrees() && DistinctEdits(edits) && i <= |edits|
    requires if i < |edits| then edits[i].0 == key else forall j :: 0 <= j < |edits| ==> edits[j].0 != key
    ensures FirstValue(u, AllAdded(Coded(edits)) + Kept(u, ManagedKeys(), fields), KeyBytes(key)) ==
      if i < |edits| then edits[i].1 else []
  {
    CodedIsPlain(u, edits);
    CodedIsDistinct(edits);
    KeptIsUnmanaged(u, ManagedKeys(), fields, KeyBytes(key));
    ReadAdded(u, Coded(edits), Kept(u, ManagedKeys(), fields), KeyBytes(key));
    if i < |edits| {
      LookupPresent(Coded(edits), i);
    } else {
      forall j | 0 <= j < |edits|
        ensures Coded(edits)[j].0 != KeyBytes(key)
      {
        if KeyBytes(edits[j].0) == KeyBytes(key) {
          KeyBytesInjective(edits[j].0, key);
        }
      }
      LookupAbsent(Coded(edits), KeyBytes(key));
    }
  }

  ghost predicate NumbersReadBack(u: Unicode, m: Metadata) {
    && LeadingValue(u, YearText(m.year), 4) == m.year
    && LeadingValue(u, NumberText(m.trackNumber), 4) == m.trackNumber
    && LeadingValue(u, NumberText(m.discNumber), 4) == m.discNumber
  }

  lemma AssembleWritten(u: Unicode, text: ManagedKey -> Bytes, m: Metadata)
    requires NumbersReadBack(u, m)
    requires forall k :: text(k) == TextOf(m, k)
    ensures Assemble(u, text) == m
  {
    hide LeadingValue, YearText, NumberText;
    assert text(Title) == m.title && text(Artist) == m.artist && text(Album) == m.album;
    assert text(AlbumArtist) == m.albumArtist && text(AlbumArtistAlias) == [];
    assert text(Composer) == m.composer && text(Genre) == m.genre;
    assert text(CommentText) == m.comment && text(DescriptionAlias) == [];
    assert text(Date) == YearText(m.year) && text(YearAlias) == [];
    assert text(TrackNumber) == NumberText(m.trackNumber) && text(DiscNumber) == NumberText(m.discNumber);
  }

  lemma EditsAreDistinct(m: Metadata)
    ensures DistinctEdits(Edits(m))
  {
  }

  /** The text a rewrite leaves under each managed key. */
  function TextOf(m: Metadata, k: ManagedKey): Bytes {
    match k
    case Title => m.title
    case Artist => m.artist
    case Album => m.album
    case AlbumArtist => m.albumArtist
    case Composer => m.composer
    case Genre => m.genre
    case Date => YearText(m.year)
    case TrackNumber => NumberText(m.trackNumber)
    case DiscNumber => NumberText(m.discNumber)
    case CommentText => m.comment
    case _ => []
  }

  function Place(k: ManagedKey): nat {
    match k
    case Title => 0
    case Artist => 1
    case Album => 2
    case AlbumArtist => 3
    case Composer => 4
    case Genre => 5
    case Date => 6
    case TrackNumber => 7
    case DiscNumber => 8
    case CommentText => 9
    case _ => 10
  }

  lemma EditAtPlace(m: Metadata, k: ManagedKey)
    ensures Place(k) <= |Edits(m)|
    ensures if Place(k) < |Edits(m)| then Edits(m)[Place(k)] == (k, TextOf(m, k))
      else (forall j :: 0 <= j < |Edits(m)| ==> Edits(m)[j].0 != k) && TextOf(m, k) == []
  {
  }

  lemma GetText(u: Unicode, c: Comment, m: Metadata, k: ManagedKey)
    requires u.Agrees()
    ensures Get(u, With(u, c, m), k) == TextOf(m, k)
  {
    EditsAreDistinct(m);
    EditAtPlace(m, k);
    hide Edits, TextOf, Place, Coded, DistinctEdits, AllAdded, Kept, FirstValue, KeyBytes;
    GetWritten(u, Edits(m), c.fields, k, Place(k));
  }

  /** Whatever a comment held, the metadata written into it is read back. */
  lemma WrittenIsRead(u: Unicode, c: Comment, m: Metadata)
    requires u.Agrees() && m.NumbersFit()
    ensures Read(u, With(u, c, m)) == m
  {
    forall k
      ensures Get(u, With(u, c, m), k) == TextOf(m, k)
    {
      GetText(u, c, m, k);
    }
    NumberReadBack(u, m.year);
    NumberReadBack(u, m.trackNumber);
    NumberReadBack(u, m.discNumber);
    AssembleWritten(u, k => Get(u, With(u, c, m), k), m);
  }

  /** Only the last rewrite counts, and nothing unmanaged is lost by the first. */
  lemma WithTwice(u: Unicode, c: Comment, m1: Metadata, m2: Metadata)
    requires u.Agrees()
    ensures With(u, With(u, c, m1), m2) == With(u, c, m2)
  {
    CodedIsPlain(u, Edits(m1));
    KeptAfterEdits(u, ManagedKeys(), Coded(Edits(m1)), c.fields);
  }

  method AddFields(edits: seq<(Bytes, Bytes)>) returns (fields: seq<Bytes>)
    ensures fields == AllAdded(edits)
  {
    hide AllAdded;
    fields := [];
    assert edits[0..] == edits && [] + AllAdded(edits) == AllAdded(edits);
    for i := 0 to |edits|
      invariant fields + AllAdded(edits[i..]) == AllAdded(edits)
    {
      AllAddedAt(edits, i);
      Regroup(fields, Added(edits[i].0, edits[i].1), AllAdded(edits[i + 1..]));
      if edits[i].1 != [] {
        fields := fields + [edits[i].0 + [61] + edits[i].1];
      } else {
        assert fields + [] == fields;
      }
    }
    AllAddedEnd(edits);
    assert fields + [] == fields;
  }

  lemma AllAddedEnd(edits: seq<(Bytes, Bytes)>)
    ensures AllAdded(edits[|edits|..]) == []
  {
  }

  lemma AllAddedAt(edits: seq<(Bytes, Bytes)>, i: nat)
    requires i < |edits|
    ensures AllAdded(edits[i..]) == Added(edits[i].0, edits[i].1) + AllAdded(edits[i + 1..])
  {
    assert edits[i..][1..] == edits[i + 1..];
  }

  method KeepFields(u: Unicode, managed: set<Bytes>, added: seq<Bytes>, fields: seq<Bytes>) returns (out: seq<Bytes>)
    ensures out == added + Kept(u, managed, fields)
  {
    out := added;
    for i := 0 to |fields|
      invariant out == added + Kept(u, managed, fields[..i])
    {
      assert fields[..i + 1] == fields[..i] + [fields[i]];
      KeptAppend(u, managed, fields[..i], [fields[i]]);
      if Key(u, fields[i]) !in managed {
        out := out + [fields[i]];
      }
    }
    assert fields[..|fields|] == fields;
  }

  method ReplaceFields(u: Unicode, c: Comment, m: Metadata) returns (out: Comment)
    ensures out == With(u, c, m)
  {
    var fields := AddFields(Coded(Edits(m)));
    fields := KeepFields(u, ManagedKeys(), fields, c.fields);
    out := Comment(c.vendor, fields);
  }

  /** Collects the first value of every key, then picks the edited fields. */
  method ReadMetadata(u: Unicode, c: Comment) returns (m: Metadata)
    ensures m == Read(u, c)
  {
    var values: map<Bytes, Bytes> := map[];
    for i := 0 to |c.fields|
      invariant forall k :: k in values <==> HasKey(u, c.fields[..i], k)
      invariant forall k :: k in values ==> values[k] == FirstValue(u, c.fields[..i], k)
    {
      ghost var seen := c.fields[..i];
      assert c.fields[..i + 1] == seen + [c.fields[i]];
      var key := Key(u, c.fields[i]);
      forall k
        ensures HasKey(u, seen + [c.fields[i]], k) <==> HasKey(u, seen, k) || k == key
        ensures HasKey(u, seen, k) ==> FirstValue(u, seen + [c.fields[i]], k) == FirstValue(u, seen, k)
        ensures !HasKey(u, seen, k) ==> FirstValue(u, seen + [c.fields[i]], k) == FirstValue(u, [c.fields[i]], k)
      {
        FirstValueAppend(u, seen, [c.fields[i]], k);
        assert (seen + [c.fields[i]])[|seen|] == c.fields[i];
        assert forall j :: 0 <= j < |seen| ==> (seen + [c.fields[i]])[j] == seen[j];
      }
      if key !in values {
        values := values[key := Value(c.fields[i])];
      }
    }
    assert c.fields[..|c.fields|] == c.fields;
    forall k
      ensures (if k in values then values[k] else []) == FirstValue(u, c.fields, k)
    {
      if k !in values {
        NoKeyNoValue(u, c.fields, k);
      }
    }
    forall k: ManagedKey
      ensures At(values, k) == Get(u, c, k)
    {
    }
    m := Assemble(u, k => At(values, k));
  }

  function At(values: map<Bytes, Bytes>, key: ManagedKey): Bytes {
    if KeyBytes(key) in values then values[KeyBytes(key)] else []
  }

  // ----- Comments that other programs wrote -----

  /** A field is a name, up to the first '=', and a value; names count in upper
      case. */
  predicate Named(u: Unicode, field: Bytes, name: string) {
    Spells(Key(u, field), name)
  }

  lemma KeyIsNamed(u: Unicode, field: Bytes, k: ManagedKey)
    ensures Key(u, field) == KeyBytes(k) <==> Named(u, field, Name(k))
  {
    hide Key;
  }

  /** The value of the first field with this name, or nothing without one. */
  ghost predicate IsFirst(u: Unicode, fields: seq<Bytes>, name: string, value: Bytes) {
    exists i :: 0 <= i <= |fields| && FirstAt(u, fields, name, i)
      && value == if i < |fields| then Value(fields[i]) else []
  }

  predicate FirstAt(u: Unicode, fields: seq<Bytes>, name: string, i: nat)
    requires i <= |fields|
  {
    (i < |fields| ==> Named(u, fields[i], name)) && forall j :: 0 <= j < i ==> !Named(u, fields[j], name)
  }

  lemma {:induction false} FirstValueAt(u: Unicode, fields: seq<Bytes>, k: ManagedKey, i: nat)
    requires i <= |fields| && FirstAt(u, fields, Name(k), i)
    ensures FirstValue(u, fields, KeyBytes(k)) == if i < |fields| then Value(fields[i]) else []
  {
    hide Value, KeyBytes, Name, Named;
    if i > 0 {
      KeyIsNamed(u, fields[0], k);
      FirstValueAt(u, fields[1..], k, i - 1);
    } else if fields != [] {
      KeyIsNamed(u, fields[0], k);
    }
  }

  lemma GetIs(u: Unicode, c: Comment, k: ManagedKey, value: Bytes)
    requires IsFirst(u, c.fields, Name(k), value)
    ensures Get(u, c, k) == value
  {
    hide FirstAt, Name, KeyBytes;
    var i :| 0 <= i <= |c.fields| && FirstAt(u, c.fields, Name(k), i)
      && value == if i < |c.fields| then Value(c.fields[i]) else [];
    FirstValueAt(u, c.fields, k, i);
  }

  /** Every field of a comment of any writer, given what stands under each
      name first: three of them are taken from a second name when nothing
      stands under the usual one. */
  lemma MetadataIs(u: Unicode, c: Comment, text: string -> Bytes)
    requires forall name :: IsFirst(u, c.fields, name, text(name))
    ensures Read(u, c) == Metadata(
      text("TITLE"), text("ARTIST"), text("ALBUM"),
      if text("ALBUMARTIST") != [] then text("ALBUMARTIST") else text("ALBUM ARTIST"),
      text("COMPOSER"), text("GENRE"), if text("COMMENT") != [] then text("COMMENT") else text("DESCRIPTION"),
      LeadingValue(u, if text("DATE") != [] then text("DATE") else text("YEAR"), 4),
      LeadingValue(u, text("TRACKNUMBER"), 4), LeadingValue(u, text("DISCNUMBER"), 4))
  {
    hide IsFirst, LeadingValue, Get, Assemble;
    forall k
      ensures Get(u, c, k) == text(Name(k))
    {
      GetIs(u, c, k, text(Name(k)));
    }
    AssembleIs(u, k => Get(u, c, k), text);
  }

  lemma AssembleIs(u: Unicode, get: ManagedKey -> Bytes, text: string -> Bytes)
    requires forall k :: get(k) == text(Name(k))
    ensures Assemble(u, get) == Metadata(
      text("TITLE"), text("ARTIST"), text("ALBUM"),
      if text("ALBUMARTIST") != [] then text("ALBUMARTIST") else text("ALBUM ARTIST"),
      text("COMPOSER"), text("GENRE"), if text("COMMENT") != [] then text("COMMENT") else text("DESCRIPTION"),
      LeadingValue(u, if text("DATE") != [] then text("DATE") else text("YEAR"), 4),
      LeadingValue(u, text("TRACKNUMBER"), 4), LeadingValue(u, text("DISCNUMBER"), 4))
  {
    NamesAre();
    hide LeadingValue, Name;
    assert get(Title) == text("TITLE") && get(Artist) == text("ARTIST") && get(Album) == text("ALBUM");
    assert get(AlbumArtist) == text("ALBUMARTIST") && get(AlbumArtistAlias) == text("ALBUM ARTIST");
    assert get(Composer) == text("COMPOSER") && get(Genre) == text("GENRE");
    assert get(CommentText) == text("COMMENT") && get(DescriptionAlias) == text("DESCRIPTION");
    assert get(Date) == text("DATE") && get(YearAlias) == text("YEAR");
    assert get(TrackNumber) == text("TRACKNUMBER") && get(DiscNumber) == text("DISCNUMBER");
  }

  lemma NamesAre()
    ensures Name(Title) == "TITLE" && Name(Artist) == "ARTIST" && Name(Album) == "ALBUM" && Name(AlbumArtist) == "ALBUMARTIST"
    ensures Name(AlbumArtistAlias) == "ALBUM ARTIST" && Name(Composer) == "COMPOSER" && Name(Genre) == "GENRE"
    ensures Name(Date) == "DATE" && Name(YearAlias) == "YEAR" && Name(TrackNumber) == "TRACKNUMBER"
    ensures Name(DiscNumber) == "DISCNUMBER" && Name(CommentText) == "COMMENT" && Name(DescriptionAlias) == "DESCRIPTION"
  {
  }

  /** Fields under none of the thirteen names. */
  predicate Stays(u: Unicode, field: Bytes) {
    && !Named(u, field, "TITLE") && !Named(u, field, "ARTIST") && !Named(u, field, "ALBUM") && !Named(u, field, "ALBUMARTIST")
    && !Named(u, field, "ALBUM ARTIST") && !Named(u, field, "COMPOSER") && !Named(u, field, "GENRE") && !Named(u, field, "DATE")
    && !Named(u, field, "YEAR") && !Named(u, field, "TRACKNUMBER") && !Named(u, field, "DISCNUMBER")
    && !Named(u, field, "COMMENT") && !Named(u, field, "DESCRIPTION")
  }

  lemma StaysIff(u: Unicode, field: Bytes)
    ensures Stays(u, field) <==> Key(u, field) !in ManagedKeys()
  {
    hide Named, KeyBytes;
    forall k
      ensures Key(u, field) == KeyBytes(k) <==> Named(u, field, Name(k))
    {
      KeyIsNamed(u, field, k);
    }
    if Key(u, field) in ManagedKeys() {
      var k: ManagedKey :| Key(u, field) == KeyBytes(k);
      assert Named(u, field, Name(k));
    } else {
      forall k: ManagedKey
        ensures !Named(u, field, Name(k))
      {
        assert KeyBytes(k) in ManagedKeys();
      }
      NamesAreAll(u, field);
    }
  }

  lemma NamesAreAll(u: Unicode, field: Bytes)
    requires forall k: ManagedKey :: !Named(u, field, Name(k))
    ensures Stays(u, field)
  {
    hide Named;
    NamesAre();
    hide Name;
  }

  function StaysIn(u: Unicode): Bytes -> bool {
    (field: Bytes) => Stays(u, field)
  }

  lemma {:induction false} KeptIsFiltered(u: Unicode, fields: seq<Bytes>)
    ensures IsFilter<Bytes>(fields, StaysIn(u), Kept(u, ManagedKeys(), fields))
  {
    hide Stays, Key, ManagedKeys, IsFilter;
    var keep := StaysIn(u);
    if fields == [] {
      FilterNone<Bytes>(keep);
    } else {
      StaysIff(u, fields[0]);
      KeptIsFiltered(u, fields[1..]);
      FilterMore<Bytes>(fields[0], fields[1..], keep, Kept(u, ManagedKeys(), fields[1..]));
      assert [fields[0]] + fields[1..] == fields;
    }
  }

  /** The written fields, by name. */
  lemma WrittenNames(m: Metadata)
    ensures var edits := Edits(m);
      && |edits| == 10
      && Name(edits[0].0) == "TITLE" && Name(edits[1].0) == "ARTIST" && Name(edits[2].0) == "ALBUM"
      && Name(edits[3].0) == "ALBUMARTIST" && Name(edits[4].0) == "COMPOSER" && Name(edits[5].0) == "GENRE"
      && Name(edits[6].0) == "DATE" && Name(edits[7].0) == "TRACKNUMBER" && Name(edits[8].0) == "DISCNUMBER"
      && Name(edits[9].0) == "COMMENT"
      && forall i :: 0 <= i < |edits| ==> edits[i].1 == TextOf(m, edits[i].0)
  {
    NamesAre();
    hide Name, YearText, NumberText;
  }

  /** A rewritten comment is the written fields, then every field under another
      name, unchanged and in order, and the vendor as it was. */
  lemma RewriteKeepsFields(u: Unicode, c: Comment, m: Metadata)
    ensures With(u, c, m).vendor == c.vendor
    ensures exists kept :: IsFilter<Bytes>(c.fields, StaysIn(u), kept) && With(u, c, m).fields == AllAdded(Coded(Edits(m))) + kept
  {
    hide IsFilter, Edits, AllAdded, Kept, Coded;
    KeptIsFiltered(u, c.fields);
  }
}
