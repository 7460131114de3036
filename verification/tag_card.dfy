/**
 The card that shows one tag: its name shortened for display with lodash
 `truncate`, and its two weights.

 lodash measures and cuts a string by Unicode symbols (a surrogate pair, or
 a character with its combining marks, counts as one). A name is therefore
 modelled as a sequence of symbols; how a string is split into symbols is
 not part of this model.
 */
module TagCard {

  /** One symbol as lodash counts them: the characters that make it up. */
  type Symbol = string

  const Dot: Symbol := "."

  /** The omission marker `'...'`, three symbols long. */
  const Omission: seq<Symbol> := [Dot, Dot, Dot]

  /** The `length` option passed by the card. */
  const MaxLength: nat := 16

  /** lodash `truncate(s, {length, omission})` without a separator: a string
      that fits is returned as it is; otherwise as much of its start as leaves
      room for the omission, followed by the omission, or the omission alone
      when there is no room for any of the string. */
  function Truncate<T>(s: seq<T>, length: nat, omission: seq<T>): (r: seq<T>)
    ensures |s| <= length ==> r == s
    ensures |s| > length ==> |omission| <= |r| <= |omission| + length && r == s[..|r| - |omission|] + omission
    ensures |s| > length && |omission| < length ==> |r| == length
    ensures |s| > length && |omission| >= length ==> r == omission
  {
    if |s| <= length then s
    else
      var end := length - |omission|;
      if end < 1 then omission else s[..end] + omission
  }

  /** The name the card displays. */
  function ShortName(name: seq<Symbol>): (r: seq<Symbol>)
    ensures |r| <= MaxLength
    ensures |name| <= MaxLength ==> r == name
    ensures |name| > MaxLength ==> |r| == MaxLength && r[..13] == name[..13] && r[13..] == Omission
  {
    Truncate(name, MaxLength, Omission)
  }

  /** Shortening an already displayed name changes nothing. */
  lemma ShortNameIdempotent(name: seq<Symbol>)
    ensures ShortName(ShortName(name)) == ShortName(name)
  {
  }

  /** Two names too long to fit get the same display exactly when they share
      their first 13 symbols: the rest of a long name is lost. */
  lemma ShortNameCollision(a: seq<Symbol>, b: seq<Symbol>)
    requires |a| > MaxLength && |b| > MaxLength
    ensures ShortName(a) == ShortName(b) <==> a[..13] == b[..13]
  {
    assert ShortName(a) == a[..13] + Omission;
    assert ShortName(b) == b[..13] + Omission;
    if ShortName(a) == ShortName(b) {
      assert a[..13] == ShortName(a)[..13];
    }
  }

  /** A displayed name that differs from the name ends with the omission. */
  lemma ShortNameMarksTruncation(name: seq<Symbol>)
    ensures ShortName(name) != name <==> |name| > MaxLength
    ensures ShortName(name) != name ==> ShortName(name)[|ShortName(name)| - 3..] == Omission
  {
    if |name| > MaxLength {
      assert |ShortName(name)| < |name|;
    }
  }

  /** What a card keeps: the displayed name and the two weights. */
  datatype CardState = CardState(shortName: seq<Symbol>, numWeight: int, bracketWeight: int)

  /** The placeholder shown before the effect runs. */
  const Placeholder: seq<Symbol> := ["M", "a", "s", "t", "e", "r", "P", "i", "e", "c", "e"]

  /** The card's state on first render. */
  function InitialCard(): (c: CardState)
    ensures c.numWeight == 1 && c.bracketWeight == 0
    ensures |c.shortName| <= MaxLength
  {
    CardState(Placeholder, 1, 0)
  }

  /** The effect that runs whenever the card's props change: it replaces the
      displayed name and leaves the weights alone. */
  function NameEffect(c: CardState, name: seq<Symbol>): (c': CardState)
    ensures c'.shortName == ShortName(name)
    ensures c'.numWeight == c.numWeight && c'.bracketWeight == c.bracketWeight
  {
    c.(shortName := ShortName(name))
  }

  /** A mounted card shows its name within 16 symbols, unchanged when it fits,
      with weights 1 and 0. */
  lemma MountedCard(name: seq<Symbol>)
    ensures var c := NameEffect(InitialCard(), name);
      && c.numWeight == 1 && c.bracketWeight == 0
      && |c.shortName| <= MaxLength
      && (|name| <= MaxLength ==> c.shortName == name)
  {
  }
}
