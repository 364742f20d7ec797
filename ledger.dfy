/**
 * The dedup ledger file `posted_transactions.txt`: one transaction hash per
 * line, appended to after each posted alert and read back as a set of hashes.
 *
 * The file is modelled by its text. Reading it in Python's text mode splits it
 * into lines at "\n", "\r\n" and a lone "\r". Here the text is cut at every
 * "\r" and every "\n" instead; this only adds an empty piece between the two
 * halves of a "\r\n", and blank pieces are dropped on loading, so the set of
 * stripped non-blank lines is the same.
 */
module Ledger {
  import opened Text

  /** The ledger file as the bot finds it: missing, present but unreadable, or holding text. */
  datatype LedgerFile = Absent | Unreadable | Written(content: string)

  predicate IsBreak(c: char) {
    c == '\n' || c == '\r'
  }

  predicate NoBreak(s: string) {
    forall k :: 0 <= k < |s| ==> !IsBreak(s[k])
  }

  function Last<T>(xs: seq<T>): T
    requires xs != []
  {
    xs[|xs| - 1]
  }

  /** The pieces of `s` between line breaks, in order; there is always at least one. */
  function Pieces(s: string): (r: seq<string>)
    ensures r != []
  {
    if s == [] then [""]
    else
      var rest := Pieces(s[1..]);
      if IsBreak(s[0]) then [""] + rest else [[s[0]] + rest[0]] + rest[1..]
  }

  /** One step of cutting: the first character either breaks or joins the first piece. */
  lemma PiecesCons(c: char, s: string)
    ensures Pieces([c] + s) ==
      if IsBreak(c) then [""] + Pieces(s) else [[c] + Pieces(s)[0]] + Pieces(s)[1..]
  {
    assert ([c] + s)[1..] == s;
  }

  /** The pieces of `a + b` as built from those of `a` and of `b`: the piece at the seam is glued. */
  function Glue(pa: seq<string>, pb: seq<string>): seq<string>
    requires pa != [] && pb != []
  {
    pa[..|pa| - 1] + [Last(pa) + pb[0]] + pb[1..]
  }

  /** Sequence bookkeeping for `PiecesConcat` when the first character joins the first piece. */
  lemma GlueFirst(c: char, pa: seq<string>, pb: seq<string>)
    requires pa != [] && pb != []
    ensures var r := Glue(pa, pb);
      [[c] + r[0]] + r[1..] == Glue([[c] + pa[0]] + pa[1..], pb)
  {
    var r := Glue(pa, pb);
    var x := [[c] + pa[0]] + pa[1..];
    if |pa| == 1 {
      assert r == [pa[0] + pb[0]] + pb[1..];
      assert [c] + (pa[0] + pb[0]) == ([c] + pa[0]) + pb[0];
    } else {
      assert r[0] == pa[0];
      assert r[1..] == pa[1..|pa| - 1] + [Last(pa) + pb[0]] + pb[1..];
      assert x[..|x| - 1] == [[c] + pa[0]] + pa[1..|pa| - 1];
    }
  }

  /** Sequence bookkeeping for `PiecesConcat` when the first character is a break. */
  lemma GlueAfterBreak(pa: seq<string>, pb: seq<string>)
    requires pa != [] && pb != []
    ensures [""] + Glue(pa, pb) == Glue([""] + pa, pb)
  {
    var x := [""] + pa;
    assert x[..|x| - 1] == [""] + pa[..|pa| - 1];
  }

  /** One character put in front of `a` keeps the gluing of `a` and `b` intact. */
  lemma PiecesConcatStep(c: char, a: string, b: string)
    requires Pieces(a + b) == Glue(Pieces(a), Pieces(b))
    ensures Pieces([c] + a + b) == Glue(Pieces([c] + a), Pieces(b))
  {
    assert [c] + a + b == [c] + (a + b);
    PiecesCons(c, a);
    PiecesCons(c, a + b);
    if IsBreak(c) {
      GlueAfterBreak(Pieces(a), Pieces(b));
    } else {
      GlueFirst(c, Pieces(a), Pieces(b));
    }
  }

  /** Cutting a concatenation: the last piece of `a` is glued to the first piece of `b`. */
  lemma {:induction false} PiecesConcat(a: string, b: string)
    ensures Pieces(a + b) == Glue(Pieces(a), Pieces(b))
  {
    if a == [] {
      var pb := Pieces(b);
      assert a + b == b;
      assert Pieces(a) == [""];
      assert "" + pb[0] == pb[0];
      assert pb == [pb[0]] + pb[1..];
    } else {
      PiecesConcat(a[1..], b);
      assert a == [a[0]] + a[1..];
      PiecesConcatStep(a[0], a[1..], b);
    }
  }

  /** A line without breaks is a single piece. */
  lemma {:induction false} PiecesOfLine(s: string)
    requires NoBreak(s)
    ensures Pieces(s) == [s]
  {
    if s != [] {
      assert NoBreak(s[1..]) by {
        forall k | 0 <= k < |s[1..]| ensures !IsBreak(s[1..][k]) {
          assert s[1..][k] == s[k + 1];
        }
      }
      PiecesOfLine(s[1..]);
      assert !IsBreak(s[0]);
      assert [s[0]] + s[1..] == s;
    }
  }

  /** The file's text is empty or ends with a line break, so an append starts a new line. */
  predicate EndsWithBreak(s: string) {
    s == [] || IsBreak(Last(s))
  }

  lemma PiecesAfterBreak(s: string)
    requires EndsWithBreak(s)
    ensures Last(Pieces(s)) == ""
  {
    if s != [] {
      var init := s[..|s| - 1];
      assert s == init + [Last(s)];
      PiecesConcat(init, [Last(s)]);
    }
  }

  /** The hashes a list of pieces holds: each piece stripped, blank ones dropped. */
  function Entries(pieces: seq<string>): set<string> {
    set p | p in pieces && Strip(p) != "" :: Strip(p)
  }

  lemma EntriesConcat(x: seq<string>, y: seq<string>)
    ensures Entries(x + y) == Entries(x) + Entries(y)
  {
  }

  lemma StripIdempotent(s: string)
    ensures Strip(Strip(s)) == Strip(s)
  {
    var r := Strip(s);
    if r != [] {
      assert TrimStart(r) == r;
      assert TrimEnd(r) == r;
    }
  }

  /** The hashes the text of a ledger file holds. */
  function TextEntries(text: string): set<string> {
    Entries(Pieces(text))
  }

  /**
   * `load_posted_transactions`: the stripped non-blank lines of the file; the empty
   * set when the file is missing or cannot be read.
   */
  function LoadPosted(file: LedgerFile): set<string> {
    match file
    case Written(text) => TextEntries(text)
    case _ => {}
  }

  /**
   * What a load gives back: never the empty string, only hashes already free of
   * outer whitespace, and nothing at all from a missing or unreadable file.
   */
  lemma LoadedHashesAreStripped(file: LedgerFile)
    ensures "" !in LoadPosted(file)
    ensures !file.Written? ==> LoadPosted(file) == {}
    ensures forall h :: h in LoadPosted(file) ==> Strip(h) == h
  {
    if file.Written? {
      forall h | h in LoadPosted(file) ensures Strip(h) == h {
        var p :| p in Pieces(file.content) && Strip(p) != "" && h == Strip(p);
        StripIdempotent(p);
      }
    }
  }

  /** A hash the ledger can store and give back: non-empty and free of whitespace. */
  predicate CleanHash(h: string) {
    h != [] && NoSpace(h)
  }

  /** The file is one this program could have written: missing, or text that ends a line. */
  predicate Terminated(file: LedgerFile) {
    file.Absent? || (file.Written? && EndsWithBreak(file.content))
  }

  /**
   * `log_posted_transaction`: append `h` and a newline, creating the file if it is
   * missing. A failed write (`writable` false) is only logged and leaves the file as it was.
   */
  function AppendHash(file: LedgerFile, h: string, writable: bool): (after: LedgerFile)
    ensures !writable ==> after == file
    ensures writable && file.Absent? ==> after == Written(h + "\n")
    ensures writable && file.Written? ==>
      && after.Written?
      && |after.content| == |file.content| + |h| + 1
      && after.content[..|file.content|] == file.content
      && after.content[|file.content|..] == h + "\n"
  {
    if !writable then file
    else match file
      case Absent => Written(h + "\n")
      case Unreadable => Unreadable
      case Written(text) => Written(text + h + "\n")
  }

  /** A blank piece adds no hash. */
  lemma EntriesSkipBlank(init: seq<string>, rest: seq<string>)
    ensures Entries(init + [""]) == Entries(init)
    ensures Entries(init + rest) == Entries(init) + Entries(rest)
  {
    EntriesConcat(init, rest);
    EntriesConcat(init, [""]);
    assert Entries([""]) == {};
  }

  /** Gluing onto an empty last piece just puts the two lists side by side. */
  lemma GlueOntoBlank(pa: seq<string>, pb: seq<string>)
    requires pa != [] && pb != [] && Last(pa) == ""
    ensures pa == pa[..|pa| - 1] + [""]
    ensures Glue(pa, pb) == pa[..|pa| - 1] + pb
  {
    assert Last(pa) + pb[0] == pb[0];
    assert pb == [pb[0]] + pb[1..];
  }

  /** After a terminated text the pieces of what follows start afresh. */
  lemma PiecesAfterTerminated(a: string, b: string)
    requires EndsWithBreak(a)
    ensures var init := Pieces(a)[..|Pieces(a)| - 1];
      Pieces(a) == init + [""] && Pieces(a + b) == init + Pieces(b)
  {
    PiecesConcat(a, b);
    PiecesAfterBreak(a);
    GlueOntoBlank(Pieces(a), Pieces(b));
  }

  lemma TextEntriesConcat(a: string, b: string)
    requires EndsWithBreak(a)
    ensures TextEntries(a + b) == TextEntries(a) + TextEntries(b)
  {
    PiecesAfterTerminated(a, b);
    EntriesSkipBlank(Pieces(a)[..|Pieces(a)| - 1], Pieces(b));
  }

  lemma LoadConcat(a: string, b: string)
    requires EndsWithBreak(a)
    ensures LoadPosted(Written(a + b)) == LoadPosted(Written(a)) + LoadPosted(Written(b))
  {
    TextEntriesConcat(a, b);
  }

  lemma LoadLine(h: string)
    requires CleanHash(h)
    ensures LoadPosted(Written(h + "\n")) == {h}
  {
    assert NoBreak(h);
    PiecesOfLine(h);
    PiecesConcat(h, "\n");
    assert Pieces("\n") == ["", ""];
    assert [h][..0] == [] && h + "" == h;
    assert Pieces(h + "\n") == [h, ""];
    StripNoSpace(h);
    assert Entries([h, ""]) == {h};
  }

  /**
   * Appending a clean hash to a file this program wrote adds exactly that hash to what
   * loading gives, and the file still ends a line.
   */
  lemma AppendRoundTrip(file: LedgerFile, h: string)
    requires Terminated(file) && CleanHash(h)
    ensures LoadPosted(AppendHash(file, h, true)) == LoadPosted(file) + {h}
    ensures Terminated(AppendHash(file, h, true))
  {
    LoadLine(h);
    if file.Written? {
      assert file.content + h + "\n" == file.content + (h + "\n");
      LoadConcat(file.content, h + "\n");
    }
  }

  /**
   * A file whose last line has no newline (one this program did not write) swallows
   * the next appended hash into that line: neither hash reads back.
   */
  lemma AppendToUnterminatedLine(line: string, h: string)
    requires CleanHash(line) && CleanHash(h)
    ensures LoadPosted(AppendHash(Written(line), h, true)) == {line + h}
    ensures line !in LoadPosted(AppendHash(Written(line), h, true))
    ensures h !in LoadPosted(AppendHash(Written(line), h, true))
  {
    assert line + h + "\n" == (line + h) + "\n";
    LoadLine(line + h);
    assert |line + h| > |line| && |line + h| > |h|;
  }

  /** Reading a ledger whose lines were all written twice gives the same set as reading it once. */
  lemma DuplicateLinesCollapse(text: string)
    requires EndsWithBreak(text)
    ensures LoadPosted(Written(text + text)) == LoadPosted(Written(text))
  {
    LoadConcat(text, text);
  }
}
