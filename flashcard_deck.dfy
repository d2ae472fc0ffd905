/**
 * The page's one piece of state, the `flashcards` list of script.js, and the three things
 * that change it: the import on page load, which replaces it, the load failure, which
 * empties it, and the form submission, which appends one card to it.
 */
module FlashcardDeck {
  import opened Wrappers
  import opened JsStrings
  import opened RowPattern
  import opened FlashcardCsv

  /** `label.includes("/") ? label : ""`: an image label names a file only once a folder is in it. */
  function ImageOrEmpty(name: string): (r: string)
    ensures r == name || r == ""
    ensures r == name <==> '/' in name || name == ""
  {
    if '/' in name then name else ""
  }

  /**
   * The card the form adds: both texts trimmed, each image label kept when it names a file
   * in a folder, box 1 and the day of the submission.  (`x || ""` is `x` for every string,
   * so it leaves no trace here.)
   */
  function NewCard(questionText: string, answerText: string,
                   questionLabel: string, answerLabel: string, today: string): (c: Card)
    ensures c.questionContent == Trim(questionText) && c.answerContent == Trim(answerText)
    ensures c.questionContentImage == ImageOrEmpty(questionLabel)
    ensures c.answerContentImage == ImageOrEmpty(answerLabel)
    ensures c.boxNumber == Some(1)
    ensures c.lastReviewed == today
  {
    Card(Trim(questionText), ImageOrEmpty(questionLabel), Trim(answerText), ImageOrEmpty(answerLabel), Some(1), today)
  }

  /** A piece cut out of a string keeps the string's freedom from line terminators and from `",`. */
  lemma SliceKeeps(s: string, lo: nat, hi: nat)
    requires lo <= hi <= |s|
    requires NoLineTerminator(s) && NoQuoteComma(s)
    ensures NoLineTerminator(s[lo..hi]) && NoQuoteComma(s[lo..hi])
  {
    var t := s[lo..hi];
    forall i | 0 <= i < |t| - 1 && t[i] == '"' ensures t[i + 1] != ',' {
      assert t[i] == s[lo + i] && t[i + 1] == s[lo + i + 1];
    }
  }

  /** Trimming keeps a text free of line terminators and of `",`. */
  lemma TrimKeeps(s: string)
    requires NoLineTerminator(s) && NoQuoteComma(s)
    ensures NoLineTerminator(Trim(s)) && NoQuoteComma(Trim(s))
  {
    TrimSlice(s);
    SliceKeeps(s, LeadingSpace(s), LeadingSpace(s) + |Trim(s)|);
  }

  /**
   * A card added from texts without line terminators or `",`, and from labels and a date
   * without `"` or line terminators, survives export and import.
   */
  lemma NewCardRepresentable(questionText: string, answerText: string,
                             questionLabel: string, answerLabel: string, today: string)
    requires NoLineTerminator(questionText) && NoQuoteComma(questionText)
    requires NoLineTerminator(answerText) && NoQuoteComma(answerText)
    requires '"' !in questionLabel && NoLineTerminator(questionLabel)
    requires '"' !in answerLabel && NoLineTerminator(answerLabel)
    requires '"' !in today && NoLineTerminator(today)
    ensures Representable(NewCard(questionText, answerText, questionLabel, answerLabel, today))
  {
    TrimKeeps(questionText);
    TrimKeeps(answerText);
  }

  /** The `flashcards` list of the page. */
  class Deck {
    var flashcards: seq<Card>

    /** `let flashcards = []`. */
    constructor()
      ensures flashcards == []
    {
      flashcards := [];
    }

    /** `parseCSV(csv)`: the list becomes the cards decoded from `csv`. */
    method ParseCsv(csv: string)
      modifies this
      ensures flashcards == Decode(csv)
    {
      flashcards := Decode(csv);
    }

    /**
     * The page-load handler: `fetched` is the text of `flashcards.csv`, or `None` when the
     * request failed or the response was not OK; then the list is emptied.
     */
    method Load(fetched: Option<string>)
      modifies this
      ensures fetched.Some? ==> flashcards == Decode(fetched.value)
      ensures fetched.None? ==> flashcards == []
    {
      match fetched {
        case Some(csv) => ParseCsv(csv);
        case None => flashcards := [];
      }
    }

    /** The form's submit handler: `flashcards.push(...)` of the card built from the form. */
    method Submit(questionText: string, answerText: string,
                  questionLabel: string, answerLabel: string, today: string)
      modifies this
      ensures |flashcards| == |old(flashcards)| + 1
      ensures flashcards[..|old(flashcards)|] == old(flashcards)
      ensures flashcards[|old(flashcards)|] == NewCard(questionText, answerText, questionLabel, answerLabel, today)
    {
      flashcards := flashcards + [NewCard(questionText, answerText, questionLabel, answerLabel, today)];
    }

    /**
     * `generateCSV()`: the text the export button saves.  When every card is representable,
     * importing that text gives back the list as it is.
     */
    function Export(): (csv: string)
      reads this
      ensures (forall c :: c in flashcards ==> Representable(c)) ==> Decode(csv) == flashcards
    {
      DecodeEncode(flashcards);
      Encode(flashcards)
    }
  }
}
