/**
 * The Keywords codec: the list of keywords is shown to the user as one
 * `", "`-joined string, and the edited string is parsed back by splitting on
 * commas, trimming every piece and dropping the empty ones.
 */
module Keywords {
  import opened Strings

  /** The separator used for display. */
  const Separator: string := ", "

  /** A keyword as parsing produces it: non-empty, trimmed, comma-free. */
  predicate IsToken(k: string) {
    k != [] && Trimmed(k) && ',' !in k
  }

  predicate AllTokens(ks: seq<string>) {
    forall k :: k in ks ==> IsToken(k)
  }

  /** Every piece is blank. */
  predicate AllBlank(ps: seq<string>) {
    forall p :: p in ps ==> Blank(p)
  }

  /** The string holds nothing but the separator and white space. */
  predicate OnlySeparatorsAndSpace(s: string, sep: char) {
    forall i :: 0 <= i < |s| ==> s[i] == sep || IsSpace(s[i])
  }

  /** The display form of a keyword list (script.js:43): the keywords joined with a comma and a space, and "" when there are none. */
  function Display(ks: seq<string>): string {
    Join(ks, Separator)
  }

  /** The trim stage of parsing (script.js:89): every piece trimmed. */
  function TrimAll(ps: seq<string>): (r: seq<string>)
    ensures |r| == |ps|
  {
    if ps == [] then [] else [Trim(ps[0])] + TrimAll(ps[1..])
  }

  /** The trim map trims each piece in place. */
  lemma {:induction false} TrimAllPointwise(ps: seq<string>)
    ensures forall i :: 0 <= i < |ps| ==> TrimAll(ps)[i] == Trim(ps[i])
  {
    if ps != [] {
      TrimAllPointwise(ps[1..]);
      var r := TrimAll(ps);
      assert forall i :: 1 <= i < |ps| ==> r[i] == TrimAll(ps[1..])[i - 1];
    }
  }

  /** The filter stage of parsing (script.js:90): the empty strings are dropped, since the empty string is the only falsy string. */
  function DropEmpty(ps: seq<string>): (r: seq<string>)
    ensures |r| <= |ps|
  {
    if ps == [] then []
    else if ps[0] == [] then DropEmpty(ps[1..])
    else [ps[0]] + DropEmpty(ps[1..])
  }

  /**
   * The filter keeps only non-empty pieces of its input, every non-empty
   * piece is kept, and nothing is kept exactly when every piece is empty.
   */
  lemma {:induction false} DropEmptySpec(ps: seq<string>)
    ensures forall k :: k in DropEmpty(ps) <==> k in ps && k != []
    ensures DropEmpty(ps) == [] <==> forall p :: p in ps ==> p == []
  {
    if ps != [] {
      DropEmptySpec(ps[1..]);
      assert forall p :: p in ps <==> p == ps[0] || p in ps[1..];
      if ps[0] != [] {
        assert ps[0] in ps;
        assert DropEmpty(ps)[0] == ps[0];
        assert forall k :: k in [ps[0]] + DropEmpty(ps[1..]) <==> k == ps[0] || k in DropEmpty(ps[1..]);
      }
    }
  }

  /** The trim-and-filter stage applied to the pieces of a split. */
  function Clean(ps: seq<string>): seq<string> {
    DropEmpty(TrimAll(ps))
  }

  /** Parsing the Keywords field (script.js:87-90): split at commas, trim every piece, drop the empty ones. */
  function Parse(s: string): seq<string> {
    Clean(Split(s, ','))
  }

  /** Every keyword parsing yields is non-empty, trimmed and free of commas. */
  lemma ParseTokens(s: string)
    ensures AllTokens(Parse(s))
  {
    SplitSeparatorFree(s, ',');
    CleanTokens(Split(s, ','));
  }

  /** Parsing yields no keyword exactly when the text holds only commas and white space. */
  lemma ParseEmpty(s: string)
    ensures Parse(s) == [] <==> OnlySeparatorsAndSpace(s, ',')
  {
    CleanEmpty(Split(s, ','));
    SplitBlank(s, ',');
  }

  /** The trim map works piece by piece: mapping a concatenation concatenates the maps. */
  lemma {:induction false} TrimAllConcat(x: seq<string>, y: seq<string>)
    ensures TrimAll(x + y) == TrimAll(x) + TrimAll(y)
  {
    if x == [] {
      assert x + y == y;
    } else {
      assert (x + y)[1..] == x[1..] + y;
      TrimAllConcat(x[1..], y);
    }
  }

  /**
   * The filter keeps order and repetition: filtering a concatenation
   * concatenates the filtered parts.
   */
  lemma {:induction false} DropEmptyConcat(x: seq<string>, y: seq<string>)
    ensures DropEmpty(x + y) == DropEmpty(x) + DropEmpty(y)
  {
    if x == [] {
      assert x + y == y;
    } else {
      assert (x + y)[0] == x[0];
      assert (x + y)[1..] == x[1..] + y;
      DropEmptyConcat(x[1..], y);
    }
  }

  /** Text without a comma parses to its trimmed form, or to nothing when that is empty. */
  lemma ParsePiece(a: string)
    requires ',' !in a
    ensures Parse(a) == if Trim(a) == [] then [] else [Trim(a)]
  {
    SplitNoSeparator(a, ',');
    assert [a] == [a] + [];
    CleanCons(a, []);
  }

  /**
   * Parsing works comma by comma: the text before a comma and the text after
   * it parse independently, and their keywords follow each other in order,
   * repeated ones included.
   */
  lemma ParseConcat(a: string, b: string)
    ensures Parse(a + [','] + b) == Parse(a) + Parse(b)
  {
    var pa, pb := Split(a, ','), Split(b, ',');
    SplitConcat(a, ',', b);
    TrimAllConcat(pa, pb);
    DropEmptyConcat(TrimAll(pa), TrimAll(pb));
  }

  /** Cleaning works piece by piece from the front. */
  lemma CleanCons(x: string, ps: seq<string>)
    ensures Clean([x] + ps) == (if Trim(x) == [] then [] else [Trim(x)]) + Clean(ps)
  {
    assert ([x] + ps)[1..] == ps;
    assert ([Trim(x)] + TrimAll(ps))[1..] == TrimAll(ps);
  }

  /** Trimming pieces that hold no comma and dropping the empty ones leaves tokens only. */
  lemma {:induction false} CleanTokens(ps: seq<string>)
    requires forall p :: p in ps ==> ',' !in p
    ensures AllTokens(Clean(ps))
  {
    if ps != [] {
      assert ps == [ps[0]] + ps[1..];
      CleanTokens(ps[1..]);
      CleanCons(ps[0], ps[1..]);
      assert ps[0] in ps;
      TrimTrimmed(ps[0]);
      TrimKeepsOut(ps[0], ',');
    }
  }

  /** Cleaning leaves nothing exactly when every piece is blank. */
  lemma {:induction false} CleanEmpty(ps: seq<string>)
    ensures Clean(ps) == [] <==> AllBlank(ps)
  {
    if ps != [] {
      assert ps == [ps[0]] + ps[1..];
      CleanEmpty(ps[1..]);
      CleanCons(ps[0], ps[1..]);
      TrimEmpty(ps[0]);
      AllBlankCons(ps[0], ps[1..]);
    }
  }

  lemma AllBlankCons(p: string, ps: seq<string>)
    ensures AllBlank([p] + ps) <==> Blank(p) && AllBlank(ps)
  {
    assert forall q :: q in [p] + ps <==> q == p || q in ps;
  }

  lemma OnlySeparatorsAndSpaceCons(s: string, sep: char)
    requires s != []
    ensures OnlySeparatorsAndSpace(s, sep)
        <==> (s[0] == sep || IsSpace(s[0])) && OnlySeparatorsAndSpace(s[1..], sep)
  {
    assert forall i :: 1 <= i < |s| ==> s[i] == s[1..][i - 1];
  }

  /** Every piece of a split is blank exactly when the string holds only separators and white space. */
  lemma {:induction false} SplitBlank(s: string, sep: char)
    requires !IsSpace(sep)
    ensures AllBlank(Split(s, sep)) <==> OnlySeparatorsAndSpace(s, sep)
  {
    if s != [] {
      SplitBlank(s[1..], sep);
      OnlySeparatorsAndSpaceCons(s, sep);
      var rest := Split(s[1..], sep);
      if s[0] == sep {
        AllBlankCons([], rest);
      } else {
        AllBlankCons([s[0]] + rest[0], rest[1..]);
        assert rest == [rest[0]] + rest[1..];
        AllBlankCons(rest[0], rest[1..]);
        BlankConcat([s[0]], rest[0]);
        assert Blank([s[0]]) <==> IsSpace(s[0]) by { assert [s[0]][0] == s[0]; }
      }
    }
  }

  /** Showing a list of two or more keywords puts a comma and a space after the first. */
  lemma DisplayCons(ks: seq<string>)
    requires |ks| >= 2
    ensures Display(ks) == ks[0] + [','] + (" " + Display(ks[1..]))
  {
    var rest := Display(ks[1..]);
    assert Display(ks) == ks[0] + Separator + rest;
    assert Separator == [','] + " ";
    assert ks[0] + ([','] + " ") + rest == ks[0] + [','] + (" " + rest);
  }

  lemma TokensCons(ks: seq<string>)
    requires ks != [] && AllTokens(ks)
    ensures IsToken(ks[0]) && AllTokens(ks[1..])
  {
    assert ks[0] in ks;
    forall q | q in ks[1..] ensures IsToken(q) { assert q in ks; }
  }

  /** A blank lead-in before a token is trimmed away, and adds no comma. */
  lemma TrimLeadIn(w: string, k: string)
    requires Blank(w) && ',' !in w && IsToken(k)
    ensures ',' !in w + k && Trim(w + k) == k
  {
    TrimUnique(w, k, []);
    assert w + k + [] == w + k;
  }

  /** Splitting a shown list of two or more keywords cuts at the first separator's comma. */
  lemma SplitDisplay(w: string, ks: seq<string>)
    requires |ks| >= 2 && ',' !in w + ks[0]
    ensures Split(w + Display(ks), ',') == [w + ks[0]] + Split(" " + Display(ks[1..]), ',')
  {
    var tail := " " + Display(ks[1..]);
    DisplayCons(ks);
    assert w + Display(ks) == (w + ks[0]) + [','] + tail;
    SplitAtSeparator(w + ks[0], ',', tail);
  }

  /** The last keyword after a blank lead-in parses to itself alone. */
  lemma ParseLast(w: string, k: string)
    requires Blank(w) && ',' !in w && IsToken(k)
    ensures Clean(Split(w + k, ',')) == [k]
  {
    TrimLeadIn(w, k);
    SplitNoSeparator(w + k, ',');
    assert [w + k] == [w + k] + [];
    CleanCons(w + k, []);
  }

  /** A keyword followed by a separator parses to itself, then whatever follows the comma parses to. */
  lemma ParseFirst(w: string, ks: seq<string>)
    requires Blank(w) && ',' !in w
    requires |ks| >= 2 && IsToken(ks[0])
    ensures Clean(Split(w + Display(ks), ',')) == [ks[0]] + Clean(Split(" " + Display(ks[1..]), ','))
  {
    TrimLeadIn(w, ks[0]);
    SplitDisplay(w, ks);
    CleanCons(w + ks[0], Split(" " + Display(ks[1..]), ','));
  }

  /**
   * Round trip after a blank, comma-free lead-in, such as the space that
   * follows each separator's comma.
   */
  lemma {:induction false} ParseAfterBlank(w: string, ks: seq<string>)
    requires Blank(w) && ',' !in w
    requires ks != [] && AllTokens(ks)
    ensures Clean(Split(w + Display(ks), ',')) == ks
    decreases |ks|
  {
    TokensCons(ks);
    if |ks| == 1 {
      assert Display(ks) == ks[0];
      ParseLast(w, ks[0]);
      assert [ks[0]] == ks;
    } else {
      ParseFirst(w, ks);
      assert Blank(" ") by { assert " "[0] == ' '; }
      ParseAfterBlank(" ", ks[1..]);
      assert [ks[0]] + ks[1..] == ks;
    }
  }

  /**
   * Keyword round trip: a list of tokens shown with `", "` and parsed back is
   * the same list, in the same order.
   */
  lemma RoundTrip(ks: seq<string>)
    requires AllTokens(ks)
    ensures Parse(Display(ks)) == ks
  {
    if ks == [] {
      assert Split([], ',') == [[]];
      CleanCons([], []);
    } else {
      assert [] + Display(ks) == Display(ks);
      ParseAfterBlank([], ks);
    }
  }

  /** Parsing is a normal form: showing a parsed list and parsing again changes nothing. */
  lemma ParseCanonical(s: string)
    ensures Parse(Display(Parse(s))) == Parse(s)
  {
    ParseTokens(s);
    RoundTrip(Parse(s));
  }

  lemma SplitExample(s: string)
    requires s == "x, y ,, z"
    ensures Split(s, ',') == ["x", " y ", "", " z"]
  {
    assert s == "x" + [','] + (" y " + [','] + ([] + [','] + " z"));
    SplitAtSeparator("x", ',', " y " + [','] + ([] + [','] + " z"));
    SplitAtSeparator(" y ", ',', [] + [','] + " z");
    SplitAtSeparator([], ',', " z");
    SplitNoSeparator(" z", ',');
  }

  lemma TrimExampleX()
    ensures Trim("x") == "x"
  {
    assert "" + "x" + "" == "x";
    TrimUnique("", "x", "");
  }

  lemma TrimExampleY()
    ensures Trim(" y ") == "y"
  {
    assert Blank(" ") by { assert " "[0] == ' '; }
    assert " " + "y" + " " == " y ";
    TrimUnique(" ", "y", " ");
  }

  lemma TrimExampleZ()
    ensures Trim(" z") == "z"
  {
    assert Blank(" ") by { assert " "[0] == ' '; }
    assert " " + "z" + "" == " z";
    TrimUnique(" ", "z", "");
  }

  lemma CleanExample(pieces: seq<string>)
    requires pieces == ["x", " y ", "", " z"]
    ensures Clean(pieces) == ["x", "y", "z"]
  {
    TrimExampleX();
    TrimExampleY();
    TrimExampleZ();
    var a, b, c, d := pieces[0], pieces[1], pieces[2], pieces[3];
    assert pieces == [a] + ([b] + ([c] + [d]));
    assert [d] == [d] + [];
    CleanCons(d, []);
    CleanCons(c, [d]);
    CleanCons(b, [c] + [d]);
    CleanCons(a, [b] + ([c] + [d]));
  }

  lemma DisplayExample(ks: seq<string>)
    requires ks == ["x", "y", "z"]
    ensures Display(ks) == "x, y, z"
  {
    assert ks[1..] == ["y", "z"] && ks[2..] == ["z"];
    assert Display(ks[2..]) == "z";
    assert Display(ks[1..]) == "y" + Separator + "z";
    assert "y" + Separator + "z" == "y, z";
    assert Display(ks) == "x" + Separator + "y, z";
    assert "x" + Separator + "y, z" == "x, y, z";
  }

  /** Stray spaces and an empty piece disappear from an edited Keywords field. */
  lemma ParseExample(s: string)
    requires s == "x, y ,, z"
    ensures Parse(s) == ["x", "y", "z"]
    ensures Display(Parse(s)) == "x, y, z"
  {
    SplitExample(s);
    CleanExample(Split(s, ','));
    DisplayExample(Parse(s));
  }
}
