/** The logical input symbols the game consumes, and the keyboard filter
    that turns key names into them. */
module Input {
  import opened Options
  import opened Decimal

  /** A digit to append, a request to delete the last digit, or a submit. */
  datatype Key = Digit(c: DigitChar) | Backspace | Enter

  /** String `<=` of the browser: lexicographic on characters, with a
      proper prefix ordered first. */
  predicate LexLe(x: string, y: string)
    decreases |x|
  {
    x == [] || (y != [] && (x[0] < y[0] || (x[0] == y[0] && LexLe(x[1..], y[1..]))))
  }

  /** The keyboard handler's test on a key name: between "0" and "9" as
      strings, or one of the two named keys. */
  predicate KeyboardAccepts(key: string) {
    (LexLe("0", key) && LexLe(key, "9")) || key == "Backspace" || key == "Enter"
  }

  /** The input symbol a key press yields, if any. */
  function FromKeyboard(key: string): (k: Option<Key>)
    ensures k.Some? ==> KeyboardAccepts(key)
    ensures |key| == 1 ==> (k.Some? <==> KeyboardAccepts(key))
    ensures k == Some(Enter) <==> key == "Enter"
    ensures k == Some(Backspace) <==> key == "Backspace"
    ensures k.Some? && k.value.Digit? ==> key == [k.value.c]
  {
    if key == "Enter" then Some(Enter)
    else if key == "Backspace" then Some(Backspace)
    else if |key| == 1 && '0' <= key[0] <= '9' then Some(Digit(key[0]))
    else None
  }

  /** Any key name the filter lets through, other than the two named keys,
      starts with a decimal digit; one that starts with 9 is "9" itself. */
  lemma AcceptedKeyStartsWithDigit(key: string)
    requires KeyboardAccepts(key) && key != "Backspace" && key != "Enter"
    ensures key != [] && '0' <= key[0] <= '9'
    ensures key[0] == '9' ==> key == "9"
  {
    if key[0] == '9' {
      var nine: string := "9";
      assert nine[0] == key[0] && nine[1..] == [];
      assert LexLe(key[1..], nine[1..]);
    }
  }
}
