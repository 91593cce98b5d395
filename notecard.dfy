/**
 * The note card: the markdown-syntax heuristic, the rules that decide what
 * the card shows, and the delete-confirmation state.
 *
 * Each of the nine regular expressions of `hasMarkdownSyntax` is written as
 * "some match position exists", following ECMAScript semantics: `.` matches
 * anything but a line terminator, `\s` is `IsWhitespace`, and `^` under the
 * `m` flag matches at the start of the input or right after a line
 * terminator.
 */
module NoteCard {
  import opened Wrappers
  import opened JsText
  import opened NoteTypes
  import UseNotes

  /** `^` with the `m` flag matches before position `p`. */
  predicate LineStart(s: JsString, p: int) {
    p == 0 || (0 < p <= |s| && IsLineTerminator(s[p - 1]))
  }

  /** `.*` can span `s[i..j]`: no line terminator in it. */
  predicate OneLine(s: JsString, i: int, j: int)
    requires 0 <= i <= j <= |s|
  {
    forall k :: i <= k < j ==> !IsLineTerminator(s[k])
  }

  /** `\s*` can span `s[i..j]`. */
  predicate Blanks(s: JsString, i: int, j: int)
    requires 0 <= i <= j <= |s|
  {
    forall k :: i <= k < j ==> IsWhitespace(s[k])
  }

  /** `\d+` can span `s[i..j]`. */
  predicate Digits(s: JsString, i: int, j: int)
    requires 0 <= i < j <= |s|
  {
    forall k :: i <= k < j ==> '0' <= s[k] <= '9'
  }

  /** `/^#{1,6}\s/m` matches at `p` with `n` hash marks. */
  predicate HeaderAt(s: JsString, p: int, n: int) {
    && 0 <= p && 1 <= n <= 6 && p + n < |s|
    && LineStart(s, p)
    && (forall k :: p <= k < p + n ==> s[k] == '#')
    && IsWhitespace(s[p + n])
  }

  predicate Header(s: JsString) {
    exists p, n | 0 <= p < |s| && 1 <= n <= 6 :: HeaderAt(s, p, n)
  }

  /** `/\*\*.*\*\*\/` matches with its two pairs of stars at `i` and `j`. */
  predicate BoldAt(s: JsString, i: int, j: int) {
    && 0 <= i && i + 2 <= j && j + 2 <= |s|
    && s[i] == '*' && s[i + 1] == '*' && s[j] == '*' && s[j + 1] == '*'
    && OneLine(s, i + 2, j)
  }

  predicate Bold(s: JsString) {
    exists i, j | 0 <= i < j < |s| :: BoldAt(s, i, j)
  }

  /** `/\*.*\*\/` matches with its stars at `i` and `j`. */
  predicate ItalicAt(s: JsString, i: int, j: int) {
    0 <= i < j < |s| && s[i] == '*' && s[j] == '*' && OneLine(s, i + 1, j)
  }

  predicate Italic(s: JsString) {
    exists i, j | 0 <= i < j < |s| :: ItalicAt(s, i, j)
  }

  /** /`.*`/ matches with its backticks at `i` and `j`. */
  predicate InlineCodeAt(s: JsString, i: int, j: int) {
    0 <= i < j < |s| && s[i] == '`' && s[j] == '`' && OneLine(s, i + 1, j)
  }

  predicate InlineCode(s: JsString) {
    exists i, j | 0 <= i < j < |s| :: InlineCodeAt(s, i, j)
  }

  /** /```[\s\S]*```/ matches with its fences at `i` and `j`; anything may lie between. */
  predicate CodeBlockAt(s: JsString, i: int, j: int) {
    0 <= i && i + 3 <= j && j + 3 <= |s| && s[i..i + 3] == "```" && s[j..j + 3] == "```"
  }

  predicate CodeBlock(s: JsString) {
    exists i, j | 0 <= i < j < |s| :: CodeBlockAt(s, i, j)
  }

  /** `/^\s*[-*+]\s/m` matches from line start `p` with its marker at `q`. */
  predicate ListItemAt(s: JsString, p: int, q: int) {
    && 0 <= p <= q && q + 1 < |s|
    && LineStart(s, p) && Blanks(s, p, q)
    && (s[q] == '-' || s[q] == '*' || s[q] == '+')
    && IsWhitespace(s[q + 1])
  }

  predicate ListItem(s: JsString) {
    exists p, q | 0 <= p <= q < |s| :: ListItemAt(s, p, q)
  }

  /** `/^\s*\d+\.\s/m` matches from line start `p`, digits from `q`, the dot at `r`. */
  predicate NumberedItemAt(s: JsString, p: int, q: int, r: int) {
    && 0 <= p <= q < r && r + 1 < |s|
    && LineStart(s, p) && Blanks(s, p, q) && Digits(s, q, r)
    && s[r] == '.' && IsWhitespace(s[r + 1])
  }

  predicate NumberedItem(s: JsString) {
    exists p, q, r | 0 <= p <= q < r < |s| :: NumberedItemAt(s, p, q, r)
  }

  /** `/\[.*\]\(.*\)/` matches with `[` at `i`, `](` at `j` and `)` at `l`. */
  predicate LinkAt(s: JsString, i: int, j: int, l: int) {
    && 0 <= i < j && j + 1 < l < |s|
    && s[i] == '[' && OneLine(s, i + 1, j)
    && s[j] == ']' && s[j + 1] == '('
    && OneLine(s, j + 2, l) && s[l] == ')'
  }

  predicate Link(s: JsString) {
    exists i, j, l | 0 <= i < j < l < |s| :: LinkAt(s, i, j, l)
  }

  /** `/^\s*>/m` matches from line start `p` with `>` at `q`. */
  predicate BlockquoteAt(s: JsString, p: int, q: int) {
    0 <= p <= q < |s| && LineStart(s, p) && Blanks(s, p, q) && s[q] == '>'
  }

  predicate Blockquote(s: JsString) {
    exists p, q | 0 <= p <= q < |s| :: BlockquoteAt(s, p, q)
  }

  /** `hasMarkdownSyntax`: some one of the nine patterns matches. */
  predicate HasMarkdownSyntax(content: JsString) {
    || Header(content) || Bold(content) || Italic(content)
    || InlineCode(content) || CodeBlock(content) || ListItem(content)
    || NumberedItem(content) || Link(content) || Blockquote(content)
  }

  /** Every bold match contains an italic match: its outer two stars. */
  lemma BoldImpliesItalic(s: JsString)
    ensures Bold(s) ==> Italic(s)
  {
    if Bold(s) {
      var i, j :| 0 <= i < j < |s| && BoldAt(s, i, j);
      assert ItalicAt(s, i, j + 1);
    }
  }

  /** Every fenced block contains an inline-code match: two adjacent backticks. */
  lemma CodeBlockImpliesInlineCode(s: JsString)
    ensures CodeBlock(s) ==> InlineCode(s)
  {
    if CodeBlock(s) {
      var i, j :| 0 <= i < j < |s| && CodeBlockAt(s, i, j);
      assert s[i] == s[i..i + 3][0] && s[i + 1] == s[i..i + 3][1];
      assert InlineCodeAt(s, i, i + 1);
    }
  }

  /**
   * The bold and fenced-block patterns never change the answer: the
   * heuristic is the same as the seven remaining patterns.
   */
  lemma SevenPatternsSuffice(s: JsString)
    ensures HasMarkdownSyntax(s) <==>
      || Header(s) || Italic(s) || InlineCode(s) || ListItem(s)
      || NumberedItem(s) || Link(s) || Blockquote(s)
  {
    BoldImpliesItalic(s);
    CodeBlockImpliesInlineCode(s);
  }

  /** Two stars on one line are enough, whatever lies between them on that line. */
  lemma TwoStarsOnOneLine(s: JsString, i: int, j: int)
    requires 0 <= i < j < |s| && s[i] == '*' && s[j] == '*'
    requires forall k :: i < k < j ==> !IsLineTerminator(s[k])
    ensures HasMarkdownSyntax(s)
  {
    assert ItalicAt(s, i, j);
  }

  /** A run of seven or more `#` at a line start is no header there, whatever follows. */
  lemma NoHeaderAfterSevenHashes(s: JsString, p: int)
    requires 0 <= p && p + 7 <= |s|
    requires forall k :: p <= k < p + 7 ==> s[k] == '#'
    ensures forall n :: !HeaderAt(s, p, n)
  {
    forall n ensures !HeaderAt(s, p, n) {
      if 1 <= n <= 6 {
        assert s[p + n] == '#';
      }
    }
  }

  lemma HeaderExamples()
    ensures HasMarkdownSyntax("###### x")
    ensures !HasMarkdownSyntax("####### x")
  {
    var six := "###### x";
    assert HeaderAt(six, 0, 6);
    var seven := "####### x";
    assert forall k :: 0 <= k < |seven| ==> seven[k] in {'#', ' ', 'x'};
    NoHeaderAfterSevenHashes(seven, 0);
    forall p | 0 < p < |seven| ensures !LineStart(seven, p) {
      assert seven[p - 1] in {'#', ' ', 'x'};
    }
    forall p, q | 0 <= p <= q < |seven| && LineStart(seven, p) && Blanks(seven, p, q) ensures q == 0 {
      assert p == 0;
      assert q > 0 ==> IsWhitespace(seven[0]);
    }
    assert !Header(seven);
    assert !Italic(seven);
    BoldImpliesItalic(seven);
    assert !InlineCode(seven);
    CodeBlockImpliesInlineCode(seven);
    assert !ListItem(seven);
    assert !NumberedItem(seven);
    assert !Link(seven);
    assert !Blockquote(seven);
  }

  /** The raw/rendered toggle is offered only for content that looks like markdown. */
  predicate MarkdownToggleShown(content: JsString) {
    HasMarkdownSyntax(content)
  }

  /** `showMarkdown && shouldShowMarkdownToggle`: rendered markdown needs the toggle and the switch. */
  predicate RenderedMarkdownShown(content: JsString, showMarkdown: bool)
    ensures RenderedMarkdownShown(content, showMarkdown) ==> MarkdownToggleShown(content)
    ensures !showMarkdown ==> !RenderedMarkdownShown(content, showMarkdown)
  {
    showMarkdown && MarkdownToggleShown(content)
  }

  /** `isDeleting || deleting`: the card's buttons are disabled. */
  predicate ActionsDisabled(isDeleting: bool, deleting: bool) {
    isDeleting || deleting
  }

  /** The "Updated" label: shown when the two timestamps differ. */
  predicate UpdatedLabelShown(n: Note) {
    n.updatedAt != n.createdAt
  }

  /**
   * For a note received from the service, the label shows exactly when the
   * service sent an `updatedAt` different from `createdAt`.
   */
  lemma UpdatedLabelFromService(a: UseNotes.ApiNote)
    ensures UpdatedLabelShown(UseNotes.ConvertApiNote(a)) <==>
      a.updatedAt.Stamp? && a.updatedAt.millis != a.createdAt
  {
  }

  /** The card's own state and the one prop that changes while it is shown. */
  class CardState {
    const note: Note
    var isDeleting: bool
    var showMarkdown: bool
    var showDeleteModal: bool
    var deleting: bool

    constructor (note: Note, isDeleting: bool)
      ensures this.note == note && this.isDeleting == isDeleting
      ensures showMarkdown && !showDeleteModal && !deleting
    {
      this.note := note;
      this.isDeleting := isDeleting;
      showMarkdown, showDeleteModal, deleting := true, false, false;
    }

    /** A new value of the `isDeleting` prop. */
    method ReceiveIsDeleting(value: bool)
      modifies this
      ensures isDeleting == value
      ensures showMarkdown == old(showMarkdown) && showDeleteModal == old(showDeleteModal) && deleting == old(deleting)
    {
      isDeleting := value;
    }

    /** `isActionDisabled`: the card's prop or its own pending delete disables its buttons. */
    predicate Disabled()
      reads this
    {
      ActionsDisabled(isDeleting, deleting)
    }

    /** The content area shows `MarkdownRenderer` rather than the raw text. */
    predicate ShowsRendered()
      reads this
    {
      RenderedMarkdownShown(note.content, showMarkdown)
    }

    /**
     * The eye button: rendered only for content that looks like markdown,
     * disabled while the card's actions are; a click flips between the
     * rendered and the raw view.
     */
    method ToggleMarkdown()
      modifies this
      ensures !Disabled() && MarkdownToggleShown(note.content) ==>
        showMarkdown == !old(showMarkdown) && ShowsRendered() == !old(ShowsRendered())
      ensures Disabled() || !MarkdownToggleShown(note.content) ==>
        showMarkdown == old(showMarkdown) && ShowsRendered() == old(ShowsRendered())
      ensures !MarkdownToggleShown(note.content) ==> !ShowsRendered()
      ensures isDeleting == old(isDeleting) && showDeleteModal == old(showDeleteModal) && deleting == old(deleting)
    {
      if !Disabled() && MarkdownToggleShown(note.content) {
        showMarkdown := !showMarkdown;
      }
    }

    /** The edit button, disabled while the card's actions are: `handleEdit` hands the note to `onEdit`. */
    method Edit() returns (edited: Option<Note>)
      ensures edited.Some? <==> !Disabled()
      ensures edited.Some? ==> edited.value == note
    {
      edited := if Disabled() then None else Some(note);
    }

    /** The delete button, disabled while the card's actions are: `handleDeleteClick` only opens the confirmation. */
    method DeleteClick()
      modifies this
      ensures showDeleteModal == (old(showDeleteModal) || !old(Disabled()))
      ensures isDeleting == old(isDeleting) && showMarkdown == old(showMarkdown) && deleting == old(deleting)
    {
      if !Disabled() {
        showDeleteModal := true;
      }
    }

    /** `handleDeleteCancel`: closes the confirmation; `onDelete` is not called. */
    method DeleteCancel()
      modifies this
      ensures !showDeleteModal
      ensures isDeleting == old(isDeleting) && showMarkdown == old(showMarkdown) && deleting == old(deleting)
    {
      showDeleteModal := false;
    }

    /**
     * `handleDeleteConfirm` up to its `await`: marks the card busy and
     * returns the id it passes to `onDelete`.
     */
    method BeginDeleteConfirm() returns (id: NoteId)
      modifies this
      ensures id == note.id && deleting && Disabled()
      ensures isDeleting == old(isDeleting) && showMarkdown == old(showMarkdown) && showDeleteModal == old(showDeleteModal)
    {
      deleting := true;
      id := note.id;
    }

    /**
     * The rest of `handleDeleteConfirm`, once `onDelete` has settled: the
     * confirmation closes only on success and stays open on failure.
     */
    method FinishDeleteConfirm(outcome: Result<(), Thrown>)
      modifies this
      ensures !deleting
      ensures outcome.Ok? ==> !showDeleteModal
      ensures outcome.Err? ==> showDeleteModal == old(showDeleteModal)
      ensures isDeleting == old(isDeleting) && showMarkdown == old(showMarkdown)
    {
      if outcome.Ok? {
        showDeleteModal := false;
      }
      deleting := false;
    }
  }
}
