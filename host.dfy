/**
 * The part of a VS Code text editor the controllers use: the document as a
 * list of lines, the indentation options, the ghost-text overlays currently
 * shown and the cursor.
 */
module Host {
  import opened Wrappers
  import opened Text

  /** `editor.options`: `tabSize` is `None` when it is not a number. */
  datatype EditorOptions = EditorOptions(tabSize: Option<nat>, insertSpaces: Option<bool>)

  datatype Position = Position(line: nat, character: nat)

  /** One decoration: ghost text shown after the end of a document line. */
  datatype Overlay = Overlay(line: nat, text: string)

  /** A document: at least one line, none holding a line break. */
  predicate IsDocument(lines: seq<string>)
  {
    |lines| >= 1 && forall i | 0 <= i < |lines| :: IsLine(lines[i])
  }

  class Editor {
    var lines: seq<string>
    const options: EditorOptions
    var decorations: seq<Overlay>
    var selection: Position

    ghost predicate Valid()
      reads this`lines
    {
      IsDocument(lines)
    }

    /** An editor showing `text`, without overlays, with the cursor at the start. */
    constructor (text: string, options: EditorOptions)
      ensures Valid() && lines == SplitLines(text) && this.options == options
      ensures decorations == [] && selection == Position(0, 0)
    {
      lines := SplitLines(text);
      this.options := options;
      decorations := [];
      selection := Position(0, 0);
    }
  }
}
