// The string operations of JavaScript that the modelled code relies on. A string is a sequence of
// characters; there is no Unicode normalisation.
module JsText {

  /** White space and line terminators, as String.prototype.trim removes them (ECMA-262, section 22.1.3.32). */
  predicate IsSpace(c: char) {
    || c == '\t' || c == '\n' || c == '\U{000B}' || c == '\U{000C}' || c == '\r' || c == ' '
    || c == '\U{00A0}' || c == '\U{1680}' || '\U{2000}' <= c <= '\U{200A}' || c == '\U{2028}' || c == '\U{2029}'
    || c == '\U{202F}' || c == '\U{205F}' || c == '\U{3000}' || c == BYTE_ORDER_MARK
  }

  const BYTE_ORDER_MARK := '\U{FEFF}'

  function TrimStart(s: string): string {
    if s != "" && IsSpace(s[0]) then TrimStart(s[1..]) else s
  }

  function TrimEnd(s: string): string {
    if s != "" && IsSpace(s[|s| - 1]) then TrimEnd(s[..|s| - 1]) else s
  }

  function Trim(s: string): string {
    TrimEnd(TrimStart(s))
  }

  predicate Trimmed(s: string) {
    s == "" || (!IsSpace(s[0]) && !IsSpace(s[|s| - 1]))
  }

  lemma {:induction false} TrimStartKeeps(s: string)
    ensures TrimStart(s) == "" || !IsSpace(TrimStart(s)[0])
    ensures forall c <- TrimStart(s) :: c in s
    ensures (exists c <- s :: !IsSpace(c)) ==> exists c <- TrimStart(s) :: !IsSpace(c)
  {
    if s != "" && IsSpace(s[0]) {
      TrimStartKeeps(s[1..]);
      assert s == [s[0]] + s[1..];
    }
  }

  lemma {:induction false} TrimEndKeeps(s: string)
    ensures TrimEnd(s) == "" || (TrimEnd(s)[0] == s[0] && !IsSpace(TrimEnd(s)[|TrimEnd(s)| - 1]))
    ensures forall c <- TrimEnd(s) :: c in s
    ensures (exists c <- s :: !IsSpace(c)) ==> TrimEnd(s) != ""
  {
    if s != "" && IsSpace(s[|s| - 1]) {
      TrimEndKeeps(s[..|s| - 1]);
      assert s == s[..|s| - 1] + [s[|s| - 1]];
    }
  }

  /** Trimming leaves no space at either end, invents nothing, and keeps a text that has something to keep. */
  lemma TrimIsTrimmed(s: string)
    ensures Trimmed(Trim(s))
    ensures forall c <- Trim(s) :: c in s
    ensures (exists c <- s :: !IsSpace(c)) ==> Trim(s) != ""
  {
    TrimStartKeeps(s);
    TrimEndKeeps(TrimStart(s));
  }

  lemma {:induction false} TrimStartSplits(s: string) returns (before: string)
    ensures s == before + TrimStart(s) && forall c <- before :: IsSpace(c)
  {
    before := "";
    if s != "" && IsSpace(s[0]) {
      before := TrimStartSplits(s[1..]);
      before := [s[0]] + before;
    }
  }

  lemma {:induction false} TrimEndSplits(s: string) returns (after: string)
    ensures s == TrimEnd(s) + after && forall c <- after :: IsSpace(c)
  {
    after := "";
    if s != "" && IsSpace(s[|s| - 1]) {
      after := TrimEndSplits(s[..|s| - 1]);
      after := after + [s[|s| - 1]];
    }
  }

  /** Trimming takes away only white space, and only at the ends. */
  lemma TrimSplits(s: string) returns (before: string, after: string)
    ensures s == before + Trim(s) + after && forall c <- before + after :: IsSpace(c)
  {
    before := TrimStartSplits(s);
    after := TrimEndSplits(TrimStart(s));
  }

  lemma TrimOfTrimmed(s: string)
    requires Trimmed(s)
    ensures Trim(s) == s
  {
  }

  /** items joined by a separator. */
  function Join(items: seq<string>, separator: char): string {
    if items == [] then ""
    else if |items| == 1 then items[0]
    else items[0] + [separator] + Join(items[1..], separator)
  }

  function Split(s: string, separator: char): (parts: seq<string>)
    ensures parts != []
  {
    if s == "" then [""]
    else
      var rest := Split(s[1..], separator);
      if s[0] == separator then [""] + rest else [[s[0]] + rest[0]] + rest[1..]
  }

  lemma {:induction false} SplitFirst(item: string, rest: string, separator: char)
    requires separator !in item
    ensures Split(item + [separator] + rest, separator) == [item] + Split(rest, separator)
    ensures Split(item, separator) == [item]
  {
    if item == "" {
      assert (item + [separator] + rest)[1..] == rest;
    } else {
      SplitFirst(item[1..], rest, separator);
      assert (item + [separator] + rest)[1..] == item[1..] + [separator] + rest;
      assert item == [item[0]] + item[1..];
    }
  }

  /** Splitting undoes joining. */
  lemma {:induction false} SplitOfJoin(items: seq<string>, separator: char)
    requires items != [] && forall item <- items :: separator !in item
    ensures Split(Join(items, separator), separator) == items
  {
    if |items| == 1 {
      SplitFirst(items[0], "", separator);
    } else {
      SplitFirst(items[0], Join(items[1..], separator), separator);
      SplitOfJoin(items[1..], separator);
    }
  }

  lemma {:induction false} SplitPartsAreFree(s: string, separator: char)
    ensures forall part <- Split(s, separator) :: separator !in part && forall c <- part :: c in s
  {
    if s != "" {
      SplitPartsAreFree(s[1..], separator);
      assert forall c :: c in s[1..] ==> c in s;
      var rest := Split(s[1..], separator);
      assert rest[0] in rest && forall part <- rest[1..] :: part in rest;
    }
  }

  lemma {:induction false} JoinedCharacters(items: seq<string>, separator: char)
    ensures forall c <- Join(items, separator) :: c == separator || exists item <- items :: c in item
    ensures |items| >= 2 ==> separator in Join(items, separator)
    ensures items != [] ==> forall c <- items[0] :: c in Join(items, separator)
  {
    if |items| > 1 {
      JoinedCharacters(items[1..], separator);
    }
  }
}
