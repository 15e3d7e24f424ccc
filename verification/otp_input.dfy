/** The six one-digit OTP cells and their input handlers, which behave the same in
    both OTP pages: a cell edit, backspace navigation and a whole-code paste.
    DOM focus is the index of the focused cell. */
module OtpInput {
  import opened Text

  const CellCount: nat := 6

  /** `/^\d?$/`: empty, or exactly one ASCII digit. */
  predicate IsCellValue(v: string) {
    v == "" || (|v| == 1 && IsDigit(v[0]))
  }

  /** Six cells, each empty or holding one digit. */
  predicate WellFormed(cells: seq<string>) {
    |cells| == CellCount && forall i :: 0 <= i < |cells| ==> IsCellValue(cells[i])
  }

  datatype Entry = Entry(cells: seq<string>, focus: nat)

  /** `Array(6).fill('')` with the first cell focused. */
  const Cleared := Entry(["", "", "", "", "", ""], 0)

  /** `cells.join('')`: empty exactly when every cell is empty, and it starts
      with the first cell. */
  function Join(cells: seq<string>): (r: string)
    ensures r == "" <==> forall i :: 0 <= i < |cells| ==> cells[i] == ""
    ensures |cells| > 0 ==> cells[0] <= r
  {
    if cells == [] then "" else cells[0] + Join(cells[1..])
  }

  /** The number of non-empty cells. */
  function Filled(cells: seq<string>): nat {
    if cells == [] then 0 else (if cells[0] != "" then 1 else 0) + Filled(cells[1..])
  }

  /** `pasted.split('')`: one cell per character. */
  function Split(s: string): (cells: seq<string>)
    ensures |cells| == |s|
    ensures forall i :: 0 <= i < |s| ==> cells[i] == [s[i]]
  {
    seq(|s|, i requires 0 <= i < |s| => [s[i]])
  }

  /** The joined code is as long as the number of filled cells, so a well-formed
      entry yields a six-character code exactly when every cell is filled. */
  lemma {:induction false} JoinLength(cells: seq<string>)
    requires forall i :: 0 <= i < |cells| ==> IsCellValue(cells[i])
    ensures |Join(cells)| == Filled(cells)
    ensures AllDigits(Join(cells))
  {
    if cells != [] {
      JoinLength(cells[1..]);
      assert forall k :: 0 <= k < |cells[0]| ==> (cells[0] + Join(cells[1..]))[k] == cells[0][k];
      assert forall k :: |cells[0]| <= k < |Join(cells)| ==>
        Join(cells)[k] == Join(cells[1..])[k - |cells[0]|];
    }
  }

  lemma {:induction false} FilledAll(cells: seq<string>)
    ensures Filled(cells) <= |cells|
    ensures Filled(cells) == |cells| <==> forall i :: 0 <= i < |cells| ==> cells[i] != ""
  {
    if cells != [] {
      FilledAll(cells[1..]);
      assert forall i :: 1 <= i < |cells| ==> cells[i] == cells[1..][i - 1];
    }
  }

  /** For well-formed cells: the code has length six iff no cell is empty. */
  lemma CodeCompleteIffAllFilled(cells: seq<string>)
    requires WellFormed(cells)
    ensures |Join(cells)| == CellCount <==> forall i :: 0 <= i < |cells| ==> cells[i] != ""
  {
    JoinLength(cells);
    FilledAll(cells);
  }

  /** Splitting a string into cells and joining them gives the string back. */
  lemma {:induction false} JoinSplit(s: string)
    ensures Join(Split(s)) == s
  {
    if s != [] {
      assert Split(s)[1..] == Split(s[1..]);
      JoinSplit(s[1..]);
    }
  }

  /** The cleared entry has no code at all. */
  lemma ClearedIsEmpty()
    ensures WellFormed(Cleared.cells)
    ensures Join(Cleared.cells) == ""
  {
    JoinLength(Cleared.cells);
    assert Filled(Cleared.cells) == 0 by {
      FilledZero(Cleared.cells);
    }
  }

  lemma {:induction false} FilledZero(cells: seq<string>)
    requires forall i :: 0 <= i < |cells| ==> cells[i] == ""
    ensures Filled(cells) == 0
  {
    if cells != [] {
      FilledZero(cells[1..]);
    }
  }

  /** `handleChange(index, value)`: a value that is empty or one digit replaces
      that cell alone, and a digit moves focus to the next cell unless this is the
      last; any other value changes nothing. */
  function Change(e: Entry, index: nat, value: string): (e': Entry)
    requires index < |e.cells|
    ensures IsCellValue(value) ==> e'.cells == e.cells[index := value]
    ensures !IsCellValue(value) ==> e' == e
    ensures |e'.cells| == |e.cells|
    ensures forall i :: 0 <= i < |e.cells| && i != index ==> e'.cells[i] == e.cells[i]
    ensures e'.focus != e.focus <==> IsCellValue(value) && value != "" && index < CellCount - 1 && e.focus != index + 1
    ensures e'.focus != e.focus ==> e'.focus == index + 1
    ensures WellFormed(e.cells) ==> WellFormed(e'.cells)
  {
    if IsCellValue(value) then
      Entry(e.cells[index := value], if value != "" && index < CellCount - 1 then index + 1 else e.focus)
    else e
  }

  /** `handleKeyDown(key, index)`: Backspace on an empty cell past the first moves
      focus one cell back; the cells never change. */
  function KeyDown(e: Entry, key: string, index: nat): (e': Entry)
    requires index < |e.cells|
    ensures e'.cells == e.cells
    ensures key == "Backspace" && e.cells[index] == "" && index > 0 ==> e'.focus == index - 1
    ensures !(key == "Backspace" && e.cells[index] == "" && index > 0) ==> e'.focus == e.focus
  {
    if key == "Backspace" && e.cells[index] == "" && index > 0 then e.(focus := index - 1) else e
  }

  /** `handlePaste(text)`: when the digits of the clipboard text number exactly
      six, they fill the cells in order and the last cell is focused; any other
      paste changes nothing. */
  function Paste(e: Entry, text: string): (e': Entry)
    ensures |StripNonDigits(text)| == CellCount ==>
              && WellFormed(e'.cells)
              && Join(e'.cells) == StripNonDigits(text)
              && e'.focus == CellCount - 1
    ensures |StripNonDigits(text)| != CellCount ==> e' == e
  {
    var pasted := StripNonDigits(text);
    if |pasted| == CellCount then
      JoinSplit(pasted);
      Entry(Split(pasted), CellCount - 1)
    else e
  }

  /** Pasting a six-digit code and joining the cells gives the code back. */
  lemma PasteRoundTrip(e: Entry, code: string)
    requires |code| == CellCount && AllDigits(code)
    ensures Join(Paste(e, code).cells) == code
    ensures forall i :: 0 <= i < CellCount ==> Paste(e, code).cells[i] == [code[i]]
  {
  }

  lemma SixDigits()
    ensures AllDigits("123456")
  {
  }

  /** The paste example of a full code: "123456" fills the cells 1..6 and
      focuses the last. */
  lemma PasteFullCode(e: Entry)
    ensures Paste(e, "123456").cells == ["1", "2", "3", "4", "5", "6"]
    ensures Paste(e, "123456").focus == 5
  {
    SixDigits();
    PasteRoundTrip(e, "123456");
  }

  /** The paste example of a short code: "12a456" carries five digits and
      changes nothing. */
  lemma PasteShortCode(e: Entry)
    ensures Paste(e, "12a456") == e
  {
    FiveDigits();
  }

  lemma FiveDigits()
    ensures StripNonDigits("12a456") == "12456"
  {
    assert "12a456" == "12a" + "456";
    StripNonDigitsAppend("12a", "456");
    assert StripNonDigits("456") == "456";
    assert "12a" == "12" + "a";
    StripNonDigitsAppend("12", "a");
    assert StripNonDigits("12") == "12";
  }
}
