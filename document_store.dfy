/** The text of the one document the editor has open, kept up to date from
    open, change and close notifications, and split at the cursor into the
    text before and after it. */
module Documents {
  import opened Wrappers
  import opened Text
  import opened Snapshot

  datatype Document = Document(uri: string, languageId: string, text: string)

  /** What a completion needs from the document: the text before the cursor,
      the text after it, and the document's language. */
  datatype CursorContext = CursorContext(prefix: string, suffix: string, languageId: string)

  /** `line_text.len() as u32`: a line length cut down to 32 bits. */
  function TruncateU32(n: nat): uint32
  {
    n % 0x1_0000_0000
  }

  /** The cursor offset `get_context` computes for (`line`, `character`): the
      lengths of the earlier lines, one newline after each, then `character`
      capped at the (32-bit) length of the cursor's line; a line past the last
      one contributes all lines. The result is capped at the text's length. */
  function CursorOffset(text: string, line: uint32, character: uint32): (r: nat)
    ensures r <= |text|
    ensures line < |Lines(text)| ==>
      Min(LineStart(Lines(text), line), |text|) <= r <= LineStart(Lines(text), line) + character
  {
    var lines := Lines(text);
    var raw :=
      if line < |lines| then LineStart(lines, line) + Min(character, TruncateU32(|lines[line]|))
      else LineStart(lines, |lines|);
    Min(raw, |text|)
  }

  class DocumentStore {
    var activeDoc: Option<Document>

    constructor()
      ensures activeDoc == None
    {
      activeDoc := None;
    }

    /** `did_open`: the opened document replaces whatever was stored. */
    method DidOpen(uri: string, languageId: string, text: string)
      modifies this
      ensures activeDoc == Some(Document(uri, languageId, text))
    {
      activeDoc := Some(Document(uri, languageId, text));
    }

    /** `did_change`: a full-text update, applied only to the stored document. */
    method DidChange(uri: string, text: string)
      modifies this
      ensures old(activeDoc).Some? && old(activeDoc).value.uri == uri ==>
        activeDoc == Some(old(activeDoc).value.(text := text))
      ensures !(old(activeDoc).Some? && old(activeDoc).value.uri == uri) ==> activeDoc == old(activeDoc)
    {
      if activeDoc.Some? && activeDoc.value.uri == uri {
        activeDoc := Some(activeDoc.value.(text := text));
      }
    }

    /** `did_close`: empties the slot only when the stored document is closed. */
    method DidClose(uri: string)
      modifies this
      ensures old(activeDoc).Some? && old(activeDoc).value.uri == uri ==> activeDoc == None
      ensures !(old(activeDoc).Some? && old(activeDoc).value.uri == uri) ==> activeDoc == old(activeDoc)
    {
      if activeDoc.Some? && activeDoc.value.uri == uri {
        activeDoc := None;
      }
    }

    /** `get_context`: nothing for a document other than the stored one;
        otherwise the stored text split at the cursor offset, with the stored
        language. */
    method GetContext(uri: string, line: uint32, character: uint32) returns (r: Option<CursorContext>)
      ensures r.None? <==> activeDoc.None? || activeDoc.value.uri != uri
      ensures r.Some? ==>
        && r.value.prefix + r.value.suffix == activeDoc.value.text
        && |r.value.prefix| == CursorOffset(activeDoc.value.text, line, character)
        && r.value.languageId == activeDoc.value.languageId
    {
      if activeDoc.None? {
        return None;
      }
      var content := activeDoc.value;
      if content.uri != uri {
        return None;
      }
      var lines := Lines(content.text);
      var offset := 0;
      var i := 0;
      while i < |lines|
        invariant 0 <= i <= |lines| && i <= line
        invariant offset == LineStart(lines, i)
      {
        if i < line {
          offset := offset + |lines[i]| + 1;
        } else if i == line {
          offset := offset + Min(character, TruncateU32(|lines[i]|));
          break;
        }
        i := i + 1;
      }
      offset := Min(offset, |content.text|);
      var prefix := content.text[..offset];
      var suffix := content.text[offset..];
      assert prefix + suffix == content.text;
      return Some(CursorContext(prefix, suffix, content.languageId));
    }
  }

  /** In a text without carriage returns, a cursor inside a line lands on that
      line: the text before it ends with the line's first `character`
      characters, preceded by a newline unless it is the first line. */
  lemma CursorWithinLine(text: string, line: uint32, character: uint32)
    requires '\r' !in text
    requires line < |Lines(text)| && character <= |Lines(text)[line]| < 0x1_0000_0000
    ensures var lines := Lines(text);
      var offset := CursorOffset(text, line, character);
      && offset == LineStart(lines, line) + character
      && text[offset - character..offset] == lines[line][..character]
      && (line > 0 ==> text[offset - character - 1] == '\n')
  {
    LineInText(text, line);
    assert TruncateU32(|Lines(text)[line]|) == |Lines(text)[line]|;
    assert CursorOffset(text, line, character) == LineStart(Lines(text), line) + character;
    SlicePrefix(text, LineStart(Lines(text), line), Lines(text)[line], character);
  }

  /** In a text without carriage returns, a cursor past the end of its line
      is clamped to the end of that line: the text before it ends with the
      whole line. */
  lemma CursorClamped(text: string, line: uint32, character: uint32)
    requires '\r' !in text
    requires line < |Lines(text)| && |Lines(text)[line]| < character
    ensures var lines := Lines(text);
      var offset := CursorOffset(text, line, character);
      && offset == LineStart(lines, line) + |lines[line]|
      && text[offset - |lines[line]|..offset] == lines[line]
  {
    LineInText(text, line);
  }

  lemma SlicePrefix(t: string, start: nat, l: string, c: nat)
    requires start + |l| <= |t| && t[start..start + |l|] == l && c <= |l|
    ensures t[start..start + c] == l[..c]
  {
    assert forall j :: 0 <= j < c ==> t[start..start + c][j] == t[start + j] == l[j];
  }

  /** In a text without carriage returns, a cursor on a line at or past the
      last one puts the whole text before it. */
  lemma CursorPastLastLine(text: string, line: uint32, character: uint32)
    requires '\r' !in text
    requires line >= |Lines(text)|
    ensures CursorOffset(text, line, character) == |text|
  {
    LineStartPastText(text);
  }

  /** Line 1, character 0 of "abc\ndef\nghi" is just after the first
      newline: the text before the cursor is "abc\n". */
  lemma CursorExample()
    ensures CursorOffset("abc\ndef\nghi", 1, 0) == 4
  {
    LinesOfExample();
    assert LineStart(["abc", "def", "ghi"], 1) == 4;
  }

  lemma LinesOfExample()
    ensures Lines("abc\ndef\nghi") == ["abc", "def", "ghi"]
  {
    assert "abc\ndef\nghi" == "abc" + "\n" + ("def" + "\n" + "ghi");
    LinesFromLine("abc", "def" + "\n" + "ghi", "");
    LinesFromLine("def", "ghi", "");
    LinesFromLast("ghi", "");
    assert "" + "abc" == "abc" && "" + "def" == "def" && "" + "ghi" == "ghi";
  }

  /** With a carriage-return line ending the offset drifts: line 1 of
      "a\r\nb" begins at index 3, but the offset counts one character per line
      break and puts the cursor at 2, before the newline. */
  lemma CrLfDrift()
    ensures CursorOffset("a\r\nb", 1, 0) == 2
    ensures "a\r\nb"[2] == '\n'
  {
    assert "a\r\nb" == "a\r" + "\n" + "b";
    LinesFromLine("a\r", "b", "");
    LinesFromLast("b", "");
    assert "" + "a\r" == "a\r" && "" + "b" == "b";
    assert StripCr("a\r") == "a";
    assert Lines("a\r\nb") == ["a", "b"];
  }
}
