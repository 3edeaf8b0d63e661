/** The rich-text editor: its toolbar, the commands a click sends to the
    browser's editing surface, and the link dialog. The editing surface
    itself is outside the model; the commands sent to it are kept in a log. */
module RichTextEditor {
  import opened Wrappers
  import opened Markup

  /** One `document.execCommand(command, false, value)` call. */
  datatype ExecCall = ExecCall(command: string, value: Option<string>)

  /** The functions a toolbar button can hold instead of a command name. */
  datatype Action =
    | FormatBlock(tag: string)
    | ExecNamed(name: string)
    | InsertLink
    | InsertImage

  /** `string | (() => void)`: a command name or a function. */
  datatype Command = Named(name: string) | Call(action: Action)

  datatype ToolbarButton = Button(title: string, command: Command) | Separator

  /** The toolbar, left to right: six groups of buttons between
      separators. */
  function Toolbar(): (r: seq<ToolbarButton>)
    ensures |r| == 24
    ensures forall i :: 0 <= i < |r| && r[i].Button? ==> r[i].title != ""
  {
    History() + [Separator] + Blocks() + [Separator] + Inline() + [Separator]
      + Alignment() + [Separator] + ListsAndBlocks() + [Separator] + Insertion()
  }

  function History(): seq<ToolbarButton> {
    [ Button("Undo (Ctrl+Z)", Named("undo")),
      Button("Redo (Ctrl+Y)", Named("redo")) ]
  }

  function Blocks(): seq<ToolbarButton> {
    [ Button("Heading 1", Call(FormatBlock("h1"))),
      Button("Heading 2", Call(FormatBlock("h2"))),
      Button("Heading 3", Call(FormatBlock("h3"))),
      Button("Paragraph", Call(FormatBlock("p"))) ]
  }

  function Inline(): seq<ToolbarButton> {
    [ Button("Bold (Ctrl+B)", Named("bold")),
      Button("Italic (Ctrl+I)", Named("italic")),
      Button("Underline (Ctrl+U)", Named("underline")),
      Button("Strikethrough", Named("strikeThrough")) ]
  }

  function Alignment(): seq<ToolbarButton> {
    [ Button("Align Left", Call(ExecNamed("justifyLeft"))),
      Button("Align Center", Call(ExecNamed("justifyCenter"))),
      Button("Align Right", Call(ExecNamed("justifyRight"))) ]
  }

  function ListsAndBlocks(): seq<ToolbarButton> {
    [ Button("Bullet List", Named("insertUnorderedList")),
      Button("Numbered List", Named("insertOrderedList")),
      Button("Quote", Call(FormatBlock("blockquote"))),
      Button("Code Block", Call(FormatBlock("pre"))) ]
  }

  function Insertion(): seq<ToolbarButton> {
    [ Button("Insert Link (Ctrl+K)", Call(InsertLink)),
      Button("Insert Image", Call(InsertImage)) ]
  }

  /** A separator has no command; clicking it does nothing. */
  function CommandOf(b: ToolbarButton): Option<Command> {
    if b.Separator? then None else Some(b.command)
  }

  /** The browser calls a click sends: none for a missing or empty command,
      one for a command name, and for a function whatever it calls. The
      image button asks for an address and sends it only when the answer is
      a non-empty string; the link button only opens the dialog. */
  function Dispatch(command: Option<Command>, promptAnswer: Option<string>): (calls: seq<ExecCall>)
    ensures |calls| <= 1
    ensures command.Some? && command.value.Named? && command.value.name != "" ==>
      calls == [ExecCall(command.value.name, None)]
    ensures command.None? || command == Some(Named("")) || command == Some(Call(InsertLink)) ==> calls == []
    ensures command.Some? && command.value.Call? && command.value.action.FormatBlock? ==>
      calls == [ExecCall("formatBlock", Some(command.value.action.tag))]
    ensures command.Some? && command.value.Call? && command.value.action.ExecNamed? ==>
      calls == [ExecCall(command.value.action.name, None)]
    ensures command == Some(Call(InsertImage)) ==>
      calls == (if promptAnswer.Some? && promptAnswer.value != "" then [ExecCall("insertImage", promptAnswer)] else [])
  {
    match command
    case None => []
    case Some(Named(name)) => if name == "" then [] else [ExecCall(name, None)]
    case Some(Call(FormatBlock(tag))) => [ExecCall("formatBlock", Some(tag))]
    case Some(Call(ExecNamed(name))) => [ExecCall(name, None)]
    case Some(Call(InsertLink)) => []
    case Some(Call(InsertImage)) =>
      if promptAnswer.Some? && promptAnswer.value != "" then [ExecCall("insertImage", promptAnswer)] else []
  }

  /** Every button but the two that ask for input sends exactly one call,
      whatever the answer to a prompt; separators send none. */
  lemma ToolbarButtonsSendOneCall(i: nat, promptAnswer: Option<string>)
    requires i < |Toolbar()|
    ensures Toolbar()[i].Separator? <==> i in {2, 7, 12, 16, 21}
    ensures Toolbar()[i].Separator? ==> Dispatch(CommandOf(Toolbar()[i]), promptAnswer) == []
    ensures Toolbar()[i].Button? && i < 22 ==> |Dispatch(CommandOf(Toolbar()[i]), promptAnswer)| == 1
  {
  }

  /** The tags the block-format buttons of a toolbar use, left to right. */
  function BlockTags(buttons: seq<ToolbarButton>): seq<string> {
    if buttons == [] then []
    else
      var b := buttons[0];
      (if b.Button? && b.command.Call? && b.command.action.FormatBlock? then [b.command.action.tag] else [])
        + BlockTags(buttons[1..])
  }

  /** The commands the named-function buttons of a toolbar send, left to
      right. */
  function NamedCalls(buttons: seq<ToolbarButton>): seq<string> {
    if buttons == [] then []
    else
      var b := buttons[0];
      (if b.Button? && b.command.Call? && b.command.action.ExecNamed? then [b.command.action.name] else [])
        + NamedCalls(buttons[1..])
  }

  lemma {:induction false} BlockTagsConcat(a: seq<ToolbarButton>, b: seq<ToolbarButton>)
    ensures BlockTags(a + b) == BlockTags(a) + BlockTags(b)
    ensures NamedCalls(a + b) == NamedCalls(a) + NamedCalls(b)
  {
    if a == [] {
      assert a + b == b;
    } else {
      assert (a + b)[1..] == a[1..] + b;
      BlockTagsConcat(a[1..], b);
    }
  }

  lemma GroupBlockTags()
    ensures BlockTags(History()) == []
    ensures BlockTags(Blocks()) == ["h1", "h2", "h3", "p"]
    ensures BlockTags(Inline()) == []
    ensures BlockTags(Alignment()) == []
    ensures BlockTags(ListsAndBlocks()) == ["blockquote", "pre"]
    ensures BlockTags(Insertion()) == []
    ensures BlockTags([Separator]) == []
  {
  }

  lemma GroupNamedCalls()
    ensures NamedCalls(History()) == []
    ensures NamedCalls(Blocks()) == []
    ensures NamedCalls(Inline()) == []
    ensures NamedCalls(Alignment()) == ["justifyLeft", "justifyCenter", "justifyRight"]
    ensures NamedCalls(ListsAndBlocks()) == []
    ensures NamedCalls(Insertion()) == []
    ensures NamedCalls([Separator]) == []
  {
  }

  /** The markup of an inserted link:
      `<a href="URL" target="_blank" rel="noopener noreferrer" class="text-primary hover:underline">TEXT</a>`.
      For an address without `>` and a text without `<`, the link reads as
      its text once its tags are stripped. */
  function LinkHtml(url: string, text: string): (r: string)
    ensures '>' !in url && '<' !in text ==> StripTags(r) == text
  {
    var r := "<" + LinkOpening(url) + ">" + text + "</a>";
    assert '>' !in url && '<' !in text ==> StripTags(r) == text by {
      if '>' !in url && '<' !in text {
        assert r == "<" + (LinkOpening(url) + (">" + (text + ("<" + ("/a" + (">" + ""))))));
        LinkOpeningHasNoClose(url);
        TagStep(LinkOpening(url), text + ("<" + ("/a" + (">" + ""))), "");
        TextThen(text, "<" + ("/a" + (">" + "")), "");
        TagStep("/a", "", "");
        assert text + [] == text;
      }
    }
    r
  }

  /** The opening tag of a link, between `<` and `>`. */
  function LinkOpening(url: string): string {
    "a href=\"" + url + LinkAttributes()
  }

  /** `" target="_blank" rel="noopener noreferrer" class="text-primary hover:underline"`. */
  function LinkAttributes(): string {
    "\" target=" + "\"_blank\"" + " rel=" + "\"noopener" + " noreferrer\"" + " class=" + "\"text-primary" + " hover:underline\""
  }

  lemma LinkAttributesHaveNoClose()
    ensures '>' !in LinkAttributes()
  {
    assert '>' !in "\" target=";
    assert '>' !in "\"_blank\"";
    assert '>' !in " rel=";
    assert '>' !in "\"noopener";
    assert '>' !in " noreferrer\"";
    assert '>' !in " class=";
    assert '>' !in "\"text-primary";
    assert '>' !in " hover:underline\"";
  }

  lemma LinkOpeningHasNoClose(url: string)
    requires '>' !in url
    ensures '>' !in LinkOpening(url)
  {
    LinkAttributesHaveNoClose();
    assert '>' !in "a href=\"";
  }

  /** The editor's own state, and the log of calls it has sent. */
  class Editor {
    var isPreview: bool
    var showLinkDialog: bool
    var linkUrl: string
    var linkText: string
    var sent: seq<ExecCall>

    /** The link fields hold something only while the dialog is open. */
    predicate Valid()
      reads this
    {
      !showLinkDialog ==> linkUrl == "" && linkText == ""
    }

    constructor ()
      ensures !isPreview && !showLinkDialog && linkUrl == "" && linkText == "" && sent == []
      ensures Valid()
    {
      isPreview := false;
      showLinkDialog := false;
      linkUrl := "";
      linkText := "";
      sent := [];
    }

    /** `execCommand`: one call sent to the editing surface. */
    method ExecCommand(command: string, value: Option<string>)
      modifies this
      ensures sent == old(sent) + [ExecCall(command, value)]
      ensures isPreview == old(isPreview) && showLinkDialog == old(showLinkDialog)
      ensures linkUrl == old(linkUrl) && linkText == old(linkText)
    {
      sent := sent + [ExecCall(command, value)];
    }

    /** `insertImage`, given the answer to its prompt (`None` when it was
        dismissed). */
    method InsertImageFromPrompt(promptAnswer: Option<string>)
      modifies this
      ensures promptAnswer.Some? && promptAnswer.value != "" ==>
        sent == old(sent) + [ExecCall("insertImage", promptAnswer)]
      ensures promptAnswer.None? || promptAnswer.value == "" ==> sent == old(sent)
      ensures isPreview == old(isPreview) && showLinkDialog == old(showLinkDialog)
      ensures linkUrl == old(linkUrl) && linkText == old(linkText)
    {
      if promptAnswer.Some? && promptAnswer.value != "" {
        ExecCommand("insertImage", promptAnswer);
      }
    }

    /** `insertLink`, given the selected text (`None` when there is no
        selection): the dialog opens, with a non-empty selection as its
        text. */
    method OpenLinkDialog(selection: Option<string>)
      requires Valid()
      modifies this
      ensures showLinkDialog
      ensures linkText == (if selection.Some? && selection.value != "" then selection.value else old(linkText))
      ensures linkUrl == old(linkUrl) && sent == old(sent) && isPreview == old(isPreview)
      ensures Valid()
    {
      if selection.Some? && selection.value != "" {
        linkText := selection.value;
      }
      showLinkDialog := true;
    }

    method SetLinkText(v: string)
      requires showLinkDialog
      modifies this
      ensures linkText == v && linkUrl == old(linkUrl) && showLinkDialog && sent == old(sent)
      ensures isPreview == old(isPreview)
    {
      linkText := v;
    }

    method SetLinkUrl(v: string)
      requires showLinkDialog
      modifies this
      ensures linkUrl == v && linkText == old(linkText) && showLinkDialog && sent == old(sent)
      ensures isPreview == old(isPreview)
    {
      linkUrl := v;
    }

    /** `handleLinkInsert`: the link is inserted only when both its text and
        its address are non-empty; the dialog closes and its fields are
        cleared in every case. */
    method InsertLinkFromDialog()
      modifies this
      ensures old(linkText) != "" && old(linkUrl) != "" ==>
        sent == old(sent) + [ExecCall("insertHTML", Some(LinkHtml(old(linkUrl), old(linkText))))]
      ensures old(linkText) == "" || old(linkUrl) == "" ==> sent == old(sent)
      ensures !showLinkDialog && linkUrl == "" && linkText == "" && isPreview == old(isPreview)
      ensures Valid()
    {
      if linkText != "" && linkUrl != "" {
        ExecCommand("insertHTML", Some(LinkHtml(linkUrl, linkText)));
      }
      showLinkDialog := false;
      linkUrl := "";
      linkText := "";
    }

    /** The dialog's Cancel button: closed and cleared, nothing sent. */
    method CancelLinkDialog()
      modifies this
      ensures !showLinkDialog && linkUrl == "" && linkText == ""
      ensures sent == old(sent) && isPreview == old(isPreview)
      ensures Valid()
    {
      showLinkDialog := false;
      linkUrl := "";
      linkText := "";
    }

    method SetPreview(on: bool)
      modifies this
      ensures isPreview == on && showLinkDialog == old(showLinkDialog)
      ensures linkUrl == old(linkUrl) && linkText == old(linkText) && sent == old(sent)
    {
      isPreview := on;
    }

    /** `handleButtonClick`, given what the browser would answer to a prompt
        and what text is selected: the calls of `Dispatch` are sent, and the
        link button opens the dialog. The toolbar is hidden in preview. */
    method HandleButtonClick(command: Option<Command>, promptAnswer: Option<string>, selection: Option<string>)
      requires Valid() && !isPreview
      modifies this
      ensures sent == old(sent) + Dispatch(command, promptAnswer)
      ensures command == Some(Call(InsertLink)) ==> (showLinkDialog &&
        linkText == (if selection.Some? && selection.value != "" then selection.value else old(linkText)))
      ensures command != Some(Call(InsertLink)) ==>
        showLinkDialog == old(showLinkDialog) && linkText == old(linkText)
      ensures linkUrl == old(linkUrl) && !isPreview
      ensures Valid()
    {
      match command
      case None =>
      case Some(Named(name)) =>
        if name != "" {
          ExecCommand(name, None);
        }
      case Some(Call(FormatBlock(tag))) =>
        ExecCommand("formatBlock", Some(tag));
      case Some(Call(ExecNamed(name))) =>
        ExecCommand(name, None);
      case Some(Call(InsertLink)) =>
        OpenLinkDialog(selection);
      case Some(Call(InsertImage)) =>
        InsertImageFromPrompt(promptAnswer);
    }
  }
}
