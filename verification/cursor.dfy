/**
  The pagination cursor: `encodeCursor` writes the last record's start time as
  ISO text, a '|' and the record's id, then Base64; `decodeCursor` undoes the
  Base64, splits on '|' and parses the first part back into a date.
 */
module Cursor {
  import opened Wrappers
  import opened Runtime
  import opened ObjectIds
  import opened InterfaceExecution
  import Base64
  import Utf8

  const Separator: char := '|'

  /** Joining parts with a separator between neighbours: the inverse of Split. */
  function Join(parts: seq<string>, sep: char): string
  {
    if |parts| == 0 then []
    else if |parts| == 1 then parts[0]
    else parts[0] + [sep] + Join(parts[1..], sep)
  }

  /** String.prototype.split with a one-character separator: the maximal pieces between separators. */
  function Split(s: string, sep: char): (parts: seq<string>)
    ensures |parts| >= 1
    ensures forall i :: 0 <= i < |parts| ==> sep !in parts[i]
    ensures Join(parts, sep) == s
  {
    if s == [] then [[]]
    else
      var rest := Split(s[1..], sep);
      assert s == [s[0]] + s[1..];
      if s[0] == sep then [[]] + rest
      else [[s[0]] + rest[0]] + rest[1..]
  }

  /** Split recovers any parts without the separator from their join. */
  lemma {:induction false} SplitJoin(parts: seq<string>, sep: char)
    requires |parts| >= 1
    requires forall i :: 0 <= i < |parts| ==> sep !in parts[i]
    ensures Split(Join(parts, sep), sep) == parts
    decreases |parts|, |parts[0]|
  {
    if |parts| == 1 {
      if parts[0] != [] {
        var p := parts[0];
        SplitJoin([p[1..]], sep);
        assert Join([p[1..]], sep) == p[1..];
        assert p == [p[0]] + p[1..];
      }
    } else if parts[0] == [] {
      var s := Join(parts, sep);
      assert s == [sep] + Join(parts[1..], sep);
      assert s[1..] == Join(parts[1..], sep);
      SplitJoin(parts[1..], sep);
      assert parts == [[]] + parts[1..];
    } else {
      var p := parts[0];
      var shorter := [p[1..]] + parts[1..];
      assert shorter[1..] == parts[1..];
      var s := Join(parts, sep);
      assert s == p + [sep] + Join(parts[1..], sep);
      assert Join(shorter, sep) == p[1..] + [sep] + Join(parts[1..], sep);
      assert s[1..] == Join(shorter, sep);
      assert s[0] == p[0] && p[0] != sep;
      assert forall i :: 0 <= i < |shorter| ==> sep !in shorter[i] by {
        assert forall c :: c in p[1..] ==> c in p;
      }
      SplitJoin(shorter, sep);
      assert p == [p[0]] + p[1..];
      assert parts == [p] + parts[1..];
    }
  }

  /** The text inside a cursor. */
  function Payload(ts: string, id: string): string
  {
    ts + [Separator] + id
  }

  /** `const [ts, id] = text.split("|")`: id is undefined (None) when there is no '|'. */
  datatype Fields = Fields(ts: string, id: Option<string>)

  function PayloadFields(text: string): (f: Fields)
    ensures f.id.None? <==> Separator !in text
  {
    var parts := Split(text, Separator);
    assert Separator in text ==> |parts| >= 2 by {
      if |parts| == 1 {
        assert Join(parts, Separator) == parts[0];
      }
    }
    Fields(parts[0], if |parts| >= 2 then Some(parts[1]) else None)
  }

  /**
    Splitting the payload gives back the time text and the id exactly when the
    id has no '|'; otherwise only the part of the id before its first '|' comes back.
   */
  lemma PayloadRoundTrip(ts: string, id: string)
    requires Separator !in ts
    ensures PayloadFields(Payload(ts, id)) == Fields(ts, Some(id)) <==> Separator !in id
    ensures PayloadFields(Payload(ts, id)) == Fields(ts, Some(Split(id, Separator)[0]))
  {
    var pieces := Split(id, Separator);
    var parts := [ts] + pieces;
    assert parts[1..] == pieces;
    assert Join(parts, Separator) == Payload(ts, id);
    SplitJoin(parts, Separator);
    if Separator in id {
      if pieces[0] == id {
        assert false;
      }
    } else {
      SplitJoin([id], Separator);
    }
  }

  /** The decoded cursor: the parsed time (NaN for an Invalid Date) and the id text, if any. */
  datatype RawCursor = RawCursor(ts: JsNumber, id: Option<string>)

  /** decodeCursor: a missing or empty token gives null; any other token decodes to something. */
  function DecodeCursor(lib: Lib, token: Option<string>): (c: Option<RawCursor>)
    ensures c.None? <==> token.None? || token.value == ""
  {
    if token.None? || token.value == "" then None
    else
      var fields := PayloadFields(Utf8.Decode(Base64.Decode(token.value)));
      Some(RawCursor(lib.parseDate(fields.ts), fields.id))
  }

  /** The token for a record with a start time. */
  function CursorToken(lib: Lib, t: Time, id: ObjectId): string
  {
    Base64.Encode(Utf8.Encode(Payload(lib.isoString(t), ToHex(id))))
  }

  /** encodeCursor: null for no record; reading startTime of a record without one throws. */
  function EncodeCursor(lib: Lib, doc: Option<Execution>): (r: Result<Option<string>, Failure>)
    ensures doc.None? ==> r == Ok(None)
    ensures r.Err? <==> doc.Some? && doc.value.startTime.None?
    ensures r.Err? ==> r.error == MissingStartTime
    ensures doc.Some? && r.Ok? ==> r.value.Some? && r.value.value != []
  {
    if doc.None? then Ok(None)
    else if doc.value.startTime.None? then Err(MissingStartTime)
    else
      var payload := Payload(lib.isoString(doc.value.startTime.value), ToHex(doc.value.id));
      assert |Utf8.Encode(payload)| >= |payload| > 0;
      Ok(Some(Base64.Encode(Utf8.Encode(payload))))
  }

  lemma PayloadAscii(lib: Lib, t: Time, id: ObjectId)
    requires Wf(lib)
    ensures Utf8.IsAscii(Payload(lib.isoString(t), ToHex(id)))
    ensures Separator !in lib.isoString(t) && Separator !in ToHex(id)
  {
    var iso := lib.isoString(t);
    var p := Payload(iso, ToHex(id));
    forall i | 0 <= i < |p| ensures p[i] as int < 128 {
      if i < |iso| {
        assert p[i] == iso[i];
        assert IsoChar(iso[i]);
      } else if i > |iso| {
        assert p[i] == ToHex(id)[i - |iso| - 1];
      }
    }
    assert Separator !in iso by {
      forall i | 0 <= i < |iso| ensures iso[i] != Separator {
        assert IsoChar(iso[i]);
      }
    }
  }

  /** Decoding the cursor of a record gives back its start time and the text of its id. */
  lemma CursorRoundTrip(lib: Lib, doc: Execution)
    requires Wf(lib)
    requires doc.startTime.Some?
    ensures EncodeCursor(lib, Some(doc)) == Ok(Some(CursorToken(lib, doc.startTime.value, doc.id)))
    ensures DecodeCursor(lib, Some(CursorToken(lib, doc.startTime.value, doc.id)))
         == Some(RawCursor(Int(doc.startTime.value), Some(ToHex(doc.id))))
  {
    var t := doc.startTime.value;
    var payload := Payload(lib.isoString(t), ToHex(doc.id));
    PayloadAscii(lib, t, doc.id);
    Base64.DecodeEncode(Utf8.Encode(payload));
    Utf8.DecodeEncodeAscii(payload);
    PayloadRoundTrip(lib.isoString(t), ToHex(doc.id));
    assert |Utf8.Encode(payload)| > 0;
  }
}
