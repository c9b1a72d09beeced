/**
  The currency-symbol lookup used wherever an amount is displayed
  (src/lib/utils.ts).
 */
module Currency {
  import opened Common
  import opened JsText

  /** `CURRENCY_SYMBOLS`: the codes that have a symbol of their own. */
  const CurrencySymbols: map<string, string> := map[
    "USD" := "$",
    "EUR" := "€",
    "GBP" := "£",
    "JPY" := "¥",
    "CAD" := "C$",
    "AUD" := "A$",
    "PHP" := "₱"
  ]

  /** The symbol shown when no currency code is given: the peso sign. */
  const DefaultSymbol: string := "₱"

  /**
    `getCurrencySymbol(code)`. `None` stands for `null`/`undefined`; like the
    empty string it yields the default symbol. Otherwise the code is
    upper-cased and looked up, falling back to the upper-cased code itself.
   */
  function GetCurrencySymbol(code: Option<string>): (r: string)
    ensures r != ""
    ensures code.None? || code.value == "" ==> r == DefaultSymbol
    ensures code.Some? && code.value != "" ==>
      r == (if ToUpper(code.value) in CurrencySymbols then CurrencySymbols[ToUpper(code.value)] else ToUpper(code.value))
  {
    if code.None? || code.value == "" then
      DefaultSymbol
    else
      var upper := ToUpper(code.value);
      if upper in CurrencySymbols then CurrencySymbols[upper] else upper
  }

  /** Codes that differ only in letter case give the same symbol. */
  lemma LookupIgnoresCase(a: string, b: string)
    requires ToUpper(a) == ToUpper(b)
    ensures GetCurrencySymbol(Some(a)) == GetCurrencySymbol(Some(b))
  {
  }

  /**
    A code that spells a table code letter for letter, in any mix of
    letter cases, gets that code's symbol.
   */
  lemma KnownCodes(code: string, key: string)
    requires key in CurrencySymbols
    requires |code| == |key| && forall k :: 0 <= k < |code| ==> UpperChar(code[k]) == key[k]
    ensures GetCurrencySymbol(Some(code)) == CurrencySymbols[key]
  {
    assert code != "";
    assert ToUpper(code) == key;
  }

  /** A code outside the table is shown as itself, upper-cased. */
  lemma UnknownCodeShownUpperCased(code: string)
    requires code != "" && ToUpper(code) !in CurrencySymbols
    ensures GetCurrencySymbol(Some(code)) == ToUpper(code)
    ensures forall k :: 0 <= k < |code| ==> !IsLower(GetCurrencySymbol(Some(code))[k])
  {
  }

  /** The result is always the default, a table symbol, or the upper-cased code. */
  lemma SymbolOrigin(code: Option<string>)
    ensures var r := GetCurrencySymbol(code);
      r == DefaultSymbol || r in CurrencySymbols.Values || (code.Some? && r == ToUpper(code.value))
  {
  }
}
