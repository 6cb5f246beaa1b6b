/**
 * The text shortening of star-note-frontend/src/components/NoteCard/NoteCard.jsx: a note card
 * shows its title and a preview of its content with the formatting markers stripped and cut
 * to a fixed length.
 */
module NoteCard {
  import opened Seqs
  import FormatText

  /** The card title is cut at 50 characters, the content preview at 100. */
  const TitleLength: nat := 50
  const PreviewLength: nat := 100

  /**
   * `truncateText(text, maxLength)`: the plain text, or its first `maxLength` characters and
   * "..." when it is longer. A missing text gives "".
   */
  function TruncateText(text: string, maxLength: nat): (r: string)
    ensures text == "" ==> r == ""
    ensures |r| <= maxLength + 3
  {
    if text == "" then ""
    else
      var plainText := FormatText.StripFormatting(text);
      if |plainText| > maxLength then plainText[..maxLength] + "..." else plainText
  }

  /**
   * Everything shown comes from the note, in order: a short result is a subsequence of the
   * text; a cut one is such a subsequence of exactly `maxLength` characters followed by "...".
   */
  lemma TruncateKeepsText(text: string, maxLength: nat)
    ensures var r := TruncateText(text, maxLength);
            if |r| <= maxLength then IsSubseq(r, text)
            else |r| == maxLength + 3 && r[maxLength..] == "..." && IsSubseq(r[..maxLength], text)
  {
    var r := TruncateText(text, maxLength);
    if text == "" {
      assert r == [];
    } else {
      var plainText := FormatText.StripFormatting(text);
      FormatText.StripFormattingDeletes(text);
      if |plainText| > maxLength {
        var head := plainText[..maxLength];
        assert r[..maxLength] == head && r[maxLength..] == "...";
        SubseqRefl(head);
        SubseqConcat(head, head, [], plainText[maxLength..]);
        assert head + [] == head && head + plainText[maxLength..] == plainText;
        SubseqTrans(head, plainText, text);
      }
    }
  }

  /** A text no longer than the cap is never cut: the card shows its plain text whole. */
  lemma ShortTextNotCut(text: string, maxLength: nat)
    requires |text| <= maxLength
    ensures TruncateText(text, maxLength) == FormatText.StripFormatting(text)
  {
    FormatText.StripFormattingDeletes(text);
  }

  /** The card title: at most 53 characters. */
  function CardTitle(title: string): (r: string)
    ensures |r| <= TitleLength + 3
  {
    TruncateText(title, TitleLength)
  }

  /** The preview: the content cut first and then rendered, so the formatter sees at most 103 characters. */
  function CardPreview(content: string): (r: string)
    ensures content == "" ==> r == ""
  {
    FormatText.Formatted(TruncateText(content, PreviewLength))
  }
}
