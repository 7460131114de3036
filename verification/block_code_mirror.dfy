/**
 The code panel of the tag editor. Its state is the text in the editor
 (`inputText`) and the text as it was last set from outside the editor
 (`prevInputText`). Typing changes only the former; every button that
 rewrites the text goes through `SetNextInputText`, which sets both. The
 panel shows "* Not Yet Refresh" and colours the Split and Min labels red
 exactly while the two differ.

 The serializer that renders the atom list as text lives outside this
 model; it is a parameter (`toCode`) of every operation that uses it.
 */
module BlockCodeMirror {
  import UnderLine

  /** One structured tag as the editor's store holds it. Its shape is defined
      outside this model; only the serializer `toCode` looks inside. */
  type TagAtom(==)

  /** The two layouts the serializer offers: `'split'` and `'zip'`. */
  datatype Mode = Split | Zip

  /** The slice of the tag-editor store the code panel reads and writes. */
  datatype EditorState = EditorState(inputText: string, prevInputText: string)

  /** The colour of the Split and Min labels: the theme default (`undefined`) or red. */
  datatype TextColor = Default | Red

  /** `isSameInputText`: the editor text is the one last set from outside. */
  predicate IsSameInputText(st: EditorState): (same: bool)
    ensures same <==> st.inputText == st.prevInputText
  {
    st.prevInputText == st.inputText
  }

  /** `getDangerColor`. */
  function DangerColor(st: EditorState): (c: TextColor)
    ensures c == Red <==> st.inputText != st.prevInputText
    ensures c == Default <==> IsSameInputText(st)
  {
    if IsSameInputText(st) then Default else Red
  }

  const NotYetRefresh: string := "* Not Yet Refresh"

  /** The text of the warning label beside the Refresh button. */
  function RefreshWarning(st: EditorState): (w: string)
    ensures w == [] <==> IsSameInputText(st)
    ensures w != [] ==> w == NotYetRefresh
  {
    if IsSameInputText(st) then "" else NotYetRefresh
  }

  /** `setNextInputText`: dispatches `setInputText` then `setPrevInputText`
      with the same text, so the panel is clean afterwards. */
  function SetNextInputText(st: EditorState, text: string): (st': EditorState)
    ensures st'.inputText == text && st'.prevInputText == text
    ensures IsSameInputText(st') && DangerColor(st') == Default && RefreshWarning(st') == []
  {
    st.(inputText := text).(prevInputText := text)
  }

  /** The editor's `onChange`: only `inputText` follows the typed text. */
  function EditorChange(st: EditorState, text: string): (st': EditorState)
    ensures st'.inputText == text && st'.prevInputText == st.prevInputText
    ensures DangerColor(st') == Red <==> text != st.prevInputText
  {
    st.(inputText := text)
  }

  /** The Split button: the atom list rendered in split mode. */
  function RenderSplit(st: EditorState, atoms: seq<TagAtom>, toCode: (seq<TagAtom>, Mode) -> string): (st': EditorState)
    ensures st'.inputText == toCode(atoms, Split) && IsSameInputText(st')
  {
    SetNextInputText(st, toCode(atoms, Split))
  }

  /** The effect that runs whenever the atom list changes: it renders the list
      in split mode, so it leaves the panel as the Split button would. */
  function AtomListEffect(st: EditorState, atoms: seq<TagAtom>, toCode: (seq<TagAtom>, Mode) -> string): (st': EditorState)
    ensures st' == RenderSplit(st, atoms, toCode)
    ensures st'.inputText == toCode(atoms, Split) && IsSameInputText(st')
  {
    SetNextInputText(st, toCode(atoms, Split))
  }

  /** The Min button: the atom list rendered in zip mode. */
  function RenderZip(st: EditorState, atoms: seq<TagAtom>, toCode: (seq<TagAtom>, Mode) -> string): (st': EditorState)
    ensures st'.inputText == toCode(atoms, Zip) && IsSameInputText(st')
  {
    SetNextInputText(st, toCode(atoms, Zip))
  }

  /** The UnderLine button: the transform applied to the current editor text. */
  function UnderScoreClick(st: EditorState): (st': EditorState)
    ensures st'.inputText == UnderLine.Transform(st.inputText) && IsSameInputText(st')
    ensures |st'.inputText| <= |st.inputText|
  {
    SetNextInputText(st, UnderLine.Transform(st.inputText))
  }

  /** The user actions the panel reacts to. The atom list a split or zip
      rendering reads from the store is carried by the event. */
  datatype Event =
    | Edit(text: string)
    | AtomListChanged(atoms: seq<TagAtom>)
    | SplitClick(atoms: seq<TagAtom>)
    | MinClick(atoms: seq<TagAtom>)
    | UnderScore
    | CopyCode

  /** The panel's reaction to one event: the atom-list effect and the Split,
      Min and UnderLine buttons commit a new text; typing sets only the editor
      text; copying reads the text and changes nothing. */
  function Step(st: EditorState, e: Event, toCode: (seq<TagAtom>, Mode) -> string): (st': EditorState)
    ensures Commits(e) ==> IsSameInputText(st')
    ensures (e.AtomListChanged? || e.SplitClick?) ==> st'.inputText == toCode(e.atoms, Split)
    ensures e.MinClick? ==> st'.inputText == toCode(e.atoms, Zip)
    ensures e.UnderScore? ==> st'.inputText == UnderLine.Transform(st.inputText)
    ensures e.Edit? ==> st'.inputText == e.text && (IsSameInputText(st') <==> e.text == st.prevInputText)
    ensures e.CopyCode? ==> st' == st
    ensures !Commits(e) ==> st'.prevInputText == st.prevInputText
  {
    match e
    case Edit(text) => EditorChange(st, text)
    case AtomListChanged(atoms) => AtomListEffect(st, atoms, toCode)
    case SplitClick(atoms) => RenderSplit(st, atoms, toCode)
    case MinClick(atoms) => RenderZip(st, atoms, toCode)
    case UnderScore => UnderScoreClick(st)
    case CopyCode => st
  }

  /** The panel after a sequence of events, first to last. The committed text
      changes only through a committing event. */
  function Run(st: EditorState, es: seq<Event>, toCode: (seq<TagAtom>, Mode) -> string): (st': EditorState)
    ensures es == [] ==> st' == st
    ensures (forall i :: 0 <= i < |es| ==> !Commits(es[i])) ==> st'.prevInputText == st.prevInputText
    decreases |es|
  {
    if es == [] then st
    else
      var st1 := Step(st, es[0], toCode);
      assert forall i :: 0 <= i < |es[1..]| ==> es[1..][i] == es[i + 1];
      Run(st1, es[1..], toCode)
  }

  /** Events that set the text from outside the editor. */
  predicate Commits(e: Event) {
    e.AtomListChanged? || e.SplitClick? || e.MinClick? || e.UnderScore?
  }

  lemma {:induction false} RunAppend(st: EditorState, a: seq<Event>, b: seq<Event>, toCode: (seq<TagAtom>, Mode) -> string)
    ensures Run(st, a + b, toCode) == Run(Run(st, a, toCode), b, toCode)
    decreases |a|
  {
    if a == [] {
      assert a + b == b;
    } else {
      assert (a + b)[0] == a[0];
      assert (a + b)[1..] == a[1..] + b;
      RunAppend(Step(st, a[0], toCode), a[1..], b, toCode);
    }
  }

  /** After any amount of typing and copying, the panel is dirty exactly when
      the editor text differs from the text that was committed before. */
  lemma UncommittedRunDirtiness(st: EditorState, es: seq<Event>, toCode: (seq<TagAtom>, Mode) -> string)
    requires forall i :: 0 <= i < |es| ==> !Commits(es[i])
    ensures var st' := Run(st, es, toCode);
      IsSameInputText(st') <==> st'.inputText == st.prevInputText
  {
  }

  /** Whatever happened before, a run that ends with a committing event
      leaves the panel clean. */
  lemma RunEndingInCommitIsClean(st: EditorState, es: seq<Event>, e: Event, toCode: (seq<TagAtom>, Mode) -> string)
    requires Commits(e)
    ensures IsSameInputText(Run(st, es + [e], toCode))
  {
    RunAppend(st, es, [e], toCode);
  }
}
