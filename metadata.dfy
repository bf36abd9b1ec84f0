/**
 * The eight descriptive fields of a document: as the document library
 * holds them (each present or absent), as the editor shows them (text), and
 * what committing an edited form does to them.
 */
module Metadata {
  import opened Options
  import opened Strings
  import Keywords

  /**
   * A JavaScript time value: whole milliseconds since the epoch, at most
   * 8.64e15 either side of it (100,000,000 days), the range a valid `Date`
   * can hold.
   */
  type TimeValue = m: int | -8640000000000000 <= m <= 8640000000000000

  /** A point in time: the time value of a valid JavaScript `Date`. */
  datatype Instant = Instant(millis: TimeValue)

  /** The document information fields as the library's getters return them. */
  datatype DocInfo = DocInfo(
    title: Option<string>,
    author: Option<string>,
    subject: Option<string>,
    keywords: Option<seq<string>>,
    creator: Option<string>,
    producer: Option<string>,
    creationDate: Option<Instant>,
    modificationDate: Option<Instant>)

  /**
   * The eight fields as text: the `meta` object that fills the table and the
   * form inputs, and the values of those inputs when the user saves.
   */
  datatype TextRecord = TextRecord(
    title: string,
    author: string,
    subject: string,
    keywords: string,
    creator: string,
    producer: string,
    creationDate: string,
    modificationDate: string)

  /** A field is shown as the empty string when absent, and through `show` when present. */
  predicate ShownAs<T>(field: Option<T>, text: string, show: T -> string) {
    match field
    case None => text == ""
    case Some(v) => text == show(v)
  }

  /** How a date is shown (script.js:46-51): absent as "", present through the host's formatter `toIso`. */
  function DateText(date: Option<Instant>, toIso: Instant -> string): string {
    match date
    case None => ""
    case Some(d) => toIso(d)
  }

  /**
   * Extraction: every absent field, text, Keywords or date, becomes the empty
   * string; a present text field is shown as it is, present Keywords joined
   * with ", ", and a present date in the host's ISO form.
   */
  function Extract(info: DocInfo, toIso: Instant -> string): (r: TextRecord)
    ensures ShownAs(info.title, r.title, s => s)
    ensures ShownAs(info.author, r.author, s => s)
    ensures ShownAs(info.subject, r.subject, s => s)
    ensures ShownAs(info.keywords, r.keywords, Keywords.Display)
    ensures ShownAs(info.creator, r.creator, s => s)
    ensures ShownAs(info.producer, r.producer, s => s)
    ensures ShownAs(info.creationDate, r.creationDate, toIso)
    ensures ShownAs(info.modificationDate, r.modificationDate, toIso)
  {
    TextRecord(
      info.title.GetOr(""),
      info.author.GetOr(""),
      info.subject.GetOr(""),
      Keywords.Display(info.keywords.GetOr([])),
      info.creator.GetOr(""),
      info.producer.GetOr(""),
      DateText(info.creationDate, toIso),
      DateText(info.modificationDate, toIso))
  }

  /** One date of a commit (script.js:97-101): the field changes only when the host parse of the text succeeds. */
  function SetDateIfValid(current: Option<Instant>, text: string, parse: string -> Option<Instant>): Option<Instant> {
    match parse(text)
    case Some(d) => Some(d)
    case None => current
  }

  /**
   * What a commit does to the fields: the five text fields take the form's
   * strings verbatim, empty ones included; Keywords become the parsed list;
   * each date takes the parsed instant when the host parse of its string
   * succeeds and otherwise keeps its prior value, independently of the other.
   */
  function ApplyForm(info: DocInfo, form: TextRecord, parse: string -> Option<Instant>): (r: DocInfo)
    ensures r.title == Some(form.title) && r.author == Some(form.author) && r.subject == Some(form.subject)
    ensures r.creator == Some(form.creator) && r.producer == Some(form.producer)
    ensures r.keywords == Some(Keywords.Parse(form.keywords))
    ensures parse(form.creationDate).Some? ==> r.creationDate == parse(form.creationDate)
    ensures parse(form.creationDate).None? ==> r.creationDate == info.creationDate
    ensures parse(form.modificationDate).Some? ==> r.modificationDate == parse(form.modificationDate)
    ensures parse(form.modificationDate).None? ==> r.modificationDate == info.modificationDate
  {
    var texts := info.(title := Some(form.title), author := Some(form.author), subject := Some(form.subject));
    var listed := texts.(keywords := Some(Keywords.Parse(form.keywords)));
    var named := listed.(creator := Some(form.creator), producer := Some(form.producer));
    var created := named.(creationDate := SetDateIfValid(info.creationDate, form.creationDate, parse));
    created.(modificationDate := SetDateIfValid(info.modificationDate, form.modificationDate, parse))
  }

  /** Keywords as the library holds them after a commit: tokens only, each passing through parsing unchanged. */
  predicate KeywordsWellFormed(info: DocInfo) {
    info.keywords.Some? ==> Keywords.AllTokens(info.keywords.value)
  }

  /** The host's parse reads back what its formatter writes, and rejects the empty string. */
  ghost predicate HostRoundTrips(parse: string -> Option<Instant>, toIso: Instant -> string) {
    parse("") == None && forall d :: parse(toIso(d)) == Some(d)
  }

  /** The Keywords text shown for a well-formed list parses back to that list. */
  lemma KeywordsRecovered(info: DocInfo, toIso: Instant -> string)
    requires KeywordsWellFormed(info)
    ensures Keywords.Parse(Extract(info, toIso).keywords) == info.keywords.GetOr([])
  {
    Keywords.RoundTrip(info.keywords.GetOr([]));
  }

  /**
   * Saving without editing: committing the form exactly as extraction filled
   * it keeps every present field and both dates, and writes the empty string
   * (or the empty list) into the fields that were absent.
   */
  lemma CommitUnedited(info: DocInfo, parse: string -> Option<Instant>, toIso: Instant -> string)
    requires KeywordsWellFormed(info)
    requires HostRoundTrips(parse, toIso)
    ensures var r := ApplyForm(info, Extract(info, toIso), parse);
      && r.title == Some(info.title.GetOr(""))
      && r.author == Some(info.author.GetOr(""))
      && r.subject == Some(info.subject.GetOr(""))
      && r.keywords == Some(info.keywords.GetOr([]))
      && r.creator == Some(info.creator.GetOr(""))
      && r.producer == Some(info.producer.GetOr(""))
      && r.creationDate == info.creationDate
      && r.modificationDate == info.modificationDate
  {
    var form := Extract(info, toIso);
    var r := ApplyForm(info, form, parse);
    assert Keywords.Parse(form.keywords) == info.keywords.GetOr([]) by {
      KeywordsRecovered(info, toIso);
    }
    assert r.creationDate == info.creationDate by {
      match info.creationDate
      case None => assert form.creationDate == "";
      case Some(d) => assert parse(form.creationDate) == Some(d);
    }
    assert r.modificationDate == info.modificationDate by {
      match info.modificationDate
      case None => assert form.modificationDate == "";
      case Some(d) => assert parse(form.modificationDate) == Some(d);
    }
  }

  /**
   * A commit settles the fields: committing again the form that re-extraction
   * shows for the committed fields changes nothing.
   */
  lemma CommitSettles(info: DocInfo, form: TextRecord, parse: string -> Option<Instant>, toIso: Instant -> string)
    requires HostRoundTrips(parse, toIso)
    ensures var r := ApplyForm(info, form, parse);
      ApplyForm(r, Extract(r, toIso), parse) == r
  {
    var r := ApplyForm(info, form, parse);
    Keywords.ParseTokens(form.keywords);
    CommitUnedited(r, parse, toIso);
  }

  /**
   * Editing Keywords: a document titled "A" without Keywords shows "A" and
   * an empty Keywords field; after the Keywords field is
   * edited to "x, y ,, z" and committed, the document holds three keywords,
   * shown again as "x, y, z".
   */
  lemma EditKeywordsExample(info: DocInfo, form: TextRecord, parse: string -> Option<Instant>, toIso: Instant -> string)
    requires info.title == Some("A") && info.keywords == None
    requires form == Extract(info, toIso).(keywords := "x, y ,, z")
    ensures Extract(info, toIso).title == "A" && Extract(info, toIso).keywords == ""
    ensures ApplyForm(info, form, parse).keywords == Some(["x", "y", "z"])
    ensures Extract(ApplyForm(info, form, parse), toIso).keywords == "x, y, z"
  {
    Keywords.ParseExample(form.keywords);
  }
}
