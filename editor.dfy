/**
 * The editor's state: the one loaded document and the name of the file it
 * came from, replaced by a load and written back into by a commit.
 */
module Editor {
  import opened Options
  import opened Metadata
  import Keywords
  import FileNames

  /**
   * The document library's in-memory document, reduced to its information
   * fields; each setter overwrites one field and nothing else.
   */
  class DocumentHandle {
    var title: Option<string>
    var author: Option<string>
    var subject: Option<string>
    var keywords: Option<seq<string>>
    var creator: Option<string>
    var producer: Option<string>
    var creationDate: Option<Instant>
    var modificationDate: Option<Instant>

    /** The fields as the getters return them. */
    function Info(): DocInfo
      reads this
    {
      DocInfo(title, author, subject, keywords, creator, producer, creationDate, modificationDate)
    }

    /** A document the library has parsed, holding the given fields. */
    constructor (info: DocInfo)
      ensures Info() == info
    {
      title, author, subject := info.title, info.author, info.subject;
      keywords, creator, producer := info.keywords, info.creator, info.producer;
      creationDate, modificationDate := info.creationDate, info.modificationDate;
    }

    method SetTitle(t: string)
      modifies this
      ensures Info() == old(Info()).(title := Some(t))
    {
      title := Some(t);
    }

    method SetAuthor(a: string)
      modifies this
      ensures Info() == old(Info()).(author := Some(a))
    {
      author := Some(a);
    }

    method SetSubject(s: string)
      modifies this
      ensures Info() == old(Info()).(subject := Some(s))
    {
      subject := Some(s);
    }

    method SetKeywords(ks: seq<string>)
      modifies this
      ensures Info() == old(Info()).(keywords := Some(ks))
    {
      keywords := Some(ks);
    }

    method SetCreator(c: string)
      modifies this
      ensures Info() == old(Info()).(creator := Some(c))
    {
      creator := Some(c);
    }

    method SetProducer(p: string)
      modifies this
      ensures Info() == old(Info()).(producer := Some(p))
    {
      producer := Some(p);
    }

    method SetCreationDate(d: Instant)
      modifies this
      ensures Info() == old(Info()).(creationDate := Some(d))
    {
      creationDate := Some(d);
    }

    method SetModificationDate(d: Instant)
      modifies this
      ensures Info() == old(Info()).(modificationDate := Some(d))
    {
      modificationDate := Some(d);
    }
  }

  /**
   * What the file input delivers: no file, or a file's name with the outcome
   * of handing its bytes to the library (`None` when the bytes do not parse).
   */
  datatype Selection = NoFile | Picked(name: string, loaded: Option<DocumentHandle>)

  /** The serialized document and the name it is offered under. */
  datatype Download = Download(bytes: seq<bv8>, name: string)

  class Session {
    /** The loaded document, `null` until a load succeeds. */
    var pdfDoc: DocumentHandle?
    /** The name of the most recently picked file. */
    var originalName: string

    constructor ()
      ensures pdfDoc == null && originalName == ""
    {
      pdfDoc := null;
      originalName := "";
    }

    /**
     * Picking a file: without a file nothing changes. Otherwise the file's
     * name is remembered at once; if the library then parses the bytes, the
     * new document replaces the old one and its fields are extracted for
     * display, and if it does not, the previous document stays loaded.
     */
    method Load(file: Selection, toIso: Instant -> string) returns (shown: Option<TextRecord>)
      modifies this
      ensures file.NoFile? ==> pdfDoc == old(pdfDoc) && originalName == old(originalName) && shown == None
      ensures file.Picked? ==> originalName == file.name
      ensures file.Picked? && file.loaded.None? ==> pdfDoc == old(pdfDoc) && shown == None
      ensures file.Picked? && file.loaded.Some? ==>
        pdfDoc == file.loaded.value && shown == Some(Extract(pdfDoc.Info(), toIso))
    {
      if file.NoFile? {
        return None;
      }
      originalName := file.name;
      match file.loaded
      case None =>
        shown := None;
      case Some(doc) =>
        pdfDoc := doc;
        shown := Some(Extract(doc.Info(), toIso));
    }

    /**
     * Saving: with no document loaded nothing happens. Otherwise the form is
     * written into the document field by field, as `ApplyForm` describes;
     * then the document is serialized, and if that succeeds the bytes are
     * offered under the name `FileNames.ExportName` derives. A failed
     * serialization leaves the document edited and offers nothing.
     */
    method Commit(form: TextRecord, fileName: string,
                  parse: string -> Option<Instant>, save: DocInfo -> Option<seq<bv8>>)
      returns (download: Option<Download>)
      modifies pdfDoc
      ensures pdfDoc == old(pdfDoc) && originalName == old(originalName)
      ensures pdfDoc == null ==> download == None
      ensures pdfDoc != null ==> pdfDoc.Info() == ApplyForm(old(pdfDoc.Info()), form, parse)
      ensures pdfDoc != null ==>
        download == match save(pdfDoc.Info())
                    case None => None
                    case Some(bytes) => Some(Download(bytes, FileNames.ExportName(fileName, originalName)))
    {
      var doc := pdfDoc;
      if doc == null {
        return None;
      }
      doc.SetTitle(form.title);
      doc.SetAuthor(form.author);
      doc.SetSubject(form.subject);

      var kwArray := Keywords.Parse(form.keywords);
      doc.SetKeywords(kwArray);

      doc.SetCreator(form.creator);
      doc.SetProducer(form.producer);

      var cd := parse(form.creationDate);
      if cd.Some? {
        doc.SetCreationDate(cd.value);
      }
      var md := parse(form.modificationDate);
      if md.Some? {
        doc.SetModificationDate(md.value);
      }

      var updatedBytes := save(doc.Info());
      if updatedBytes.None? {
        return None;
      }

      var outName := FileNames.BaseName(fileName, originalName);
      if !FileNames.HasPdfSuffix(outName) {
        outName := outName + FileNames.PdfSuffix;
      }
      download := Some(Download(updatedBytes.value, outName));
    }
  }
}
