/**
  The JavaScript and MongoDB behaviour that the controller calls but that is not
  part of this model: date formatting and parsing, number parsing, regular
  expressions, text search and `$dateToString`. They are passed around as one
  value of type `Lib`, and `Wf` states the facts about them that the proofs use;
  `WfSatisfiable` shows a library that meets them.
 */
module Runtime {
  import opened Wrappers

  /** A point in time, in milliseconds since the Unix epoch (UTC). */
  type Time = int

  /** A JavaScript number as the model sees it: an integer, or NaN (also the time value of an Invalid Date). */
  datatype JsNumber = Int(value: int) | NaN

  datatype Lib = Lib(
    isoString: Time -> string,               // Date.prototype.toISOString
    parseDate: string -> JsNumber,           // new Date(text); NaN is an Invalid Date
    toNumber: string -> JsNumber,            // Number(text)
    regexCompiles: string -> bool,           // new RegExp(text, "i") does not throw
    regexMatches: (string, string) -> bool,  // the case-insensitive regex of the first argument matches the second
    textMatches: (string, string) -> bool,   // MongoDB $text: {$search: first} matches a message equal to the second
    dateToString: (string, Time) -> string   // MongoDB $dateToString with the given format, in UTC
  )

  /** A character toISOString can produce: ASCII, and never the cursor separator. */
  predicate IsoChar(c: char)
  {
    c as int < 128 && c != '|'
  }

  /**
    toISOString ends its text with the zone designator 'Z' and uses that letter
    nowhere else, in the four-digit form "YYYY-MM-DDTHH:mm:ss.sssZ" and in the
    six-digit extended-year form "+YYYYYY-MM-DDTHH:mm:ss.sssZ" alike.
   */
  predicate EndsAtZ(s: string)
  {
    |s| >= 1 && s[|s| - 1] == 'Z' && forall i :: 0 <= i < |s| - 1 ==> s[i] != 'Z'
  }

  /** What the model relies on: new Date(d.toISOString()) gives d back, and the ISO text is ASCII without '|' and ends at its only 'Z'. */
  ghost predicate Wf(lib: Lib)
  {
    && (forall t :: lib.parseDate(lib.isoString(t)) == Int(t))
    && (forall t :: EndsAtZ(lib.isoString(t)))
    && (forall t, i :: 0 <= i < |lib.isoString(t)| ==> IsoChar(lib.isoString(t)[i]))
  }

  /** A stand-in date format that meets `Wf`: a sign, |t| letters 'a', then 'Z'. */
  function TallyIso(t: Time): string
  {
    (if t < 0 then "-" else "") + seq(if t < 0 then -t else t, i => 'a') + "Z"
  }

  function TallyParse(s: string): JsNumber
  {
    if |s| >= 1 && s[0] == '-' then Int(-(|s| - 2)) else Int(|s| - 1)
  }

  lemma TallyRoundTrip(t: Time)
    ensures TallyParse(TallyIso(t)) == Int(t)
    ensures EndsAtZ(TallyIso(t))
    ensures forall i :: 0 <= i < |TallyIso(t)| ==> IsoChar(TallyIso(t)[i])
  {
    var s := TallyIso(t);
    if t >= 0 {
      assert s[0] == 'a' || s[0] == 'Z';
    }
  }

  /** A library built on the stand-in format; the functions `Wf` says nothing about are constant. */
  function TallyLib(): Lib
  {
    Lib(TallyIso, TallyParse, (s: string) => NaN, (s: string) => false,
        (p: string, s: string) => false, (p: string, s: string) => false, (f: string, t: Time) => "")
  }

  lemma TallyWf()
    ensures Wf(TallyLib())
  {
    var lib := TallyLib();
    forall t
      ensures lib.parseDate(lib.isoString(t)) == Int(t)
      ensures EndsAtZ(lib.isoString(t))
      ensures forall i :: 0 <= i < |lib.isoString(t)| ==> IsoChar(lib.isoString(t)[i])
    {
      TallyRoundTrip(t);
    }
  }

  /** `Wf` is not vacuous: some library meets every fact it states. */
  lemma WfSatisfiable()
    ensures exists lib :: Wf(lib)
  {
    TallyWf();
  }

  /** The errors the controller's handlers pass on to the error middleware. */
  datatype Failure =
    | InvalidRegex      // new RegExp(interfaceName, "i") threw a SyntaxError
    | InvalidObjectId   // new ObjectId(cursor.id) threw on text that is not 24 hex digits
    | CastError         // Mongoose could not cast an Invalid Date or NaN in the query
    | MissingStartTime  // encodeCursor read startTime of a record without one (TypeError)
    | InvalidTime       // toISOString on an Invalid Date (RangeError)
}
