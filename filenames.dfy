/**
 * Naming the exported document: the trimmed name the user typed, or the
 * name of the uploaded file when that is blank, with ".pdf" appended unless
 * the name already ends with it, ignoring case.
 */
module FileNames {
  import opened Strings

  const PdfSuffix: string := ".pdf"

  /**
   * The base of the download name (script.js:110): the typed name, trimmed;
   * the empty string is falsy, so the uploaded name is used exactly when the
   * typed name is blank.
   */
  function BaseName(input: string, originalName: string): (r: string)
    ensures Blank(input) ==> r == originalName
    ensures !Blank(input) ==> r == Trim(input) && r != []
  {
    var t := Trim(input);
    TrimEmpty(input);
    if t != [] then t else originalName
  }

  /** The suffix test of script.js:111: the name, lower-cased (ASCII only), ends with ".pdf". */
  predicate HasPdfSuffix(name: string) {
    EndsWith(Lower(name), PdfSuffix)
  }

  /**
   * The suffix test in terms of the name's own characters: its last four are
   * a dot followed by p, d and f, each in either case.
   */
  lemma SuffixTest(n: string)
    ensures HasPdfSuffix(n) <==>
      |n| >= 4 && n[|n| - 4] == '.' && n[|n| - 3] in "pP" && n[|n| - 2] in "dD" && n[|n| - 1] in "fF"
  {
    var l := Lower(n);
    if |n| >= 4 {
      assert l[|l| - 4..] == [l[|l| - 4], l[|l| - 3], l[|l| - 2], l[|l| - 1]];
    }
  }

  /** Appending the suffix gives a name that has it. */
  lemma AppendedSuffix(base: string)
    ensures HasPdfSuffix(base + PdfSuffix)
  {
    var n := base + PdfSuffix;
    var l := Lower(n);
    assert l[|l| - 4..] == PdfSuffix by {
      forall j | 0 <= j < 4 ensures l[|l| - 4 + j] == PdfSuffix[j] {
        assert n[|n| - 4 + j] == PdfSuffix[j];
      }
    }
  }

  /**
   * The download name: it always ends with ".pdf" case-insensitively, it
   * starts with the base name, and it is the base name itself exactly when
   * the base name already has the suffix; otherwise the suffix is appended
   * once, literally (no extension is replaced).
   */
  function ExportName(input: string, originalName: string): (r: string)
    ensures HasPdfSuffix(r)
    ensures r == BaseName(input, originalName) <==> HasPdfSuffix(BaseName(input, originalName))
    ensures r == BaseName(input, originalName) || r == BaseName(input, originalName) + PdfSuffix
  {
    var base := BaseName(input, originalName);
    AppendedSuffix(base);
    if HasPdfSuffix(base) then base else base + PdfSuffix
  }

  /**
   * Exporting again with an empty name field, from a document whose
   * uploaded name is a derived name, keeps that name.
   */
  lemma ExportNameStable(input: string, originalName: string)
    ensures ExportName("", ExportName(input, originalName)) == ExportName(input, originalName)
  {
    assert Blank("");
  }

  /** A name without white space at either end is its own trimmed form. */
  lemma TrimmedName(s: string)
    requires Trimmed(s)
    ensures Trim(s) == s
  {
    assert [] + s + [] == s;
    TrimUnique([], s, []);
  }

  /** An empty name field falls back to the uploaded name. */
  lemma ExampleEmptyInput()
    ensures ExportName("", "report.pdf") == "report.pdf"
  {
    assert Blank("");
    assert Lower("report.pdf") == "report.pdf";
  }

  lemma ExampleAppend()
    ensures ExportName("out", "report.pdf") == "out.pdf"
  {
    TrimmedName("out");
    assert !HasPdfSuffix("out");
    assert "out" + PdfSuffix == "out.pdf";
  }

  /** The suffix test ignores case, and an upper-case suffix is kept as typed. */
  lemma ExampleUpperCase()
    ensures ExportName("out.PDF", "report.pdf") == "out.PDF"
  {
    TrimmedName("out.PDF");
    assert Lower("out.PDF") == "out.pdf";
  }

  lemma TrimMyFile()
    ensures Trim("  my file  ") == "my file"
  {
    assert Blank("  ") by { assert "  "[0] == ' ' && "  "[1] == ' '; }
    assert "  " + "my file" + "  " == "  my file  ";
    TrimUnique("  ", "my file", "  ");
  }

  lemma MyFileLacksSuffix()
    ensures !HasPdfSuffix("my file")
  {
    assert Lower("my file")[3] == 'f';
    assert Lower("my file")[3..][0] == 'f';
  }

  /** The typed name is trimmed before the suffix is appended. */
  lemma ExampleTrimmed()
    ensures ExportName("  my file  ", "x.pdf") == "my file.pdf"
  {
    TrimMyFile();
    MyFileLacksSuffix();
    assert "my file" + PdfSuffix == "my file.pdf";
  }

  /** The check is a literal suffix test: ".pdfx" is not ".pdf", so ".pdf" is appended. */
  lemma ExampleLiteralSuffix()
    ensures ExportName("x.pdfx", "report.pdf") == "x.pdfx.pdf"
  {
    TrimmedName("x.pdfx");
    assert Lower("x.pdfx") == "x.pdfx";
  }

  /** A blank name field falls back to the uploaded name, which is not trimmed. */
  lemma ExampleUntrimmedOriginal()
    ensures ExportName("   ", " scan.Pdf") == " scan.Pdf"
  {
    assert Blank("   ") by { assert forall i :: 0 <= i < 3 ==> "   "[i] == ' '; }
    assert Lower(" scan.Pdf") == " scan.pdf";
  }
}
