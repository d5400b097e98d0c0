/**
 * The two field validators of the login form. Both are deliberately weak:
 * an e-mail only needs an `@` somewhere, a password only needs more than
 * six characters once surrounding whitespace is ignored.
 */
module Validation {
  import opened JsText

  /** `email.includes('@')`: valid iff `@` occurs anywhere; nothing else about the address is checked. */
  function IsValidEmail(email: string): (r: bool)
    ensures r <==> exists i :: 0 <= i < |email| && email[i] == '@'
  {
    IncludesChar(email, '@');
    Includes(email, "@")
  }

  /** `password.trim().length > 6`. */
  function IsValidPassword(password: string): (r: bool)
    ensures r ==> |password| > 6
    ensures AllWhitespace(password) ==> !r
  {
    var core := Trim(password);
    assert AllWhitespace(password) ==> core == [] by {
      if AllWhitespace(password) {
        assert Surrounds(password, |password|, []);
        TrimUnique(password, |password|, []);
      }
    }
    |core| > 6
  }

  /**
   * The password rule in terms of the text itself: whenever `password` is
   * whitespace around a core that starts and ends with non-whitespace, the
   * password is valid iff that core is longer than six characters.
   */
  lemma PasswordCoreLength(password: string, i: int, core: string)
    requires Surrounds(password, i, core) && Tight(core)
    ensures IsValidPassword(password) <==> |core| > 6
  {
    TrimUnique(password, i, core);
  }

  /** Leading and trailing whitespace never counts towards the password length. */
  lemma PasswordIgnoresPadding(w1: string, password: string, w2: string)
    requires AllWhitespace(w1) && AllWhitespace(w2)
    ensures IsValidPassword(w1 + password + w2) == IsValidPassword(password)
  {
    TrimAbsorbsWhitespace(w1, password, w2);
  }

  /** An `@` at a known position makes any text a valid e-mail. */
  lemma AtMakesValid(email: string, i: int)
    requires 0 <= i < |email| && email[i] == '@'
    ensures IsValidEmail(email)
  {
  }

  /** "noat.com" has no `@` at any of its eight positions. */
  lemma NoAtIsInvalid()
    ensures !IsValidEmail("noat.com")
  {
    var t := "noat.com";
    assert t == ['n', 'o', 'a', 't', '.', 'c', 'o', 'm'];
    assert forall i :: 0 <= i < |t| ==> t[i] != '@';
  }

  /** Sample inputs: "a@" and "a@b.com" are acceptable e-mails, "noat.com" and "" are not. */
  lemma EmailSamples()
    ensures IsValidEmail("a@")
    ensures IsValidEmail("a@b.com")
    ensures !IsValidEmail("noat.com")
    ensures !IsValidEmail("")
  {
    AtMakesValid("a@", 1);
    AtMakesValid("a@b.com", 1);
    NoAtIsInvalid();
  }

  /** "longenough" has no surrounding whitespace and ten characters: valid. */
  lemma LongEnoughIsValid()
    ensures IsValidPassword("longenough")
  {
    var word := "longenough";
    assert Tight(word) by {
      assert word[0] == 'l' && word[|word| - 1] == 'h';
    }
    assert Surrounds(word, 0, word) by {
      assert word[0..|word|] == word;
      assert word[..0] == [] && word[|word|..] == [];
    }
    PasswordCoreLength(word, 0, word);
  }

  /** "  abcdef  " trims down to the six characters "abcdef": invalid. */
  lemma PaddedSixIsInvalid()
    ensures !IsValidPassword("  abcdef  ")
  {
    var core := "abcdef";
    assert Tight(core) by {
      assert core[0] == 'a' && core[|core| - 1] == 'f';
    }
    assert AllWhitespace("  ") by {
      assert "  "[0] == ' ' && "  "[1] == ' ';
    }
    assert "  abcdef  " == "  " + core + "  ";
    SurroundsConcat("  ", core, "  ");
    PasswordCoreLength("  abcdef  ", 2, core);
  }

  /**
   * Sample inputs: "longenough" is an acceptable password; "short" is not,
   * and neither is "  abcdef  ", whose ten characters trim down to six.
   */
  lemma PasswordSamples()
    ensures IsValidPassword("longenough")
    ensures !IsValidPassword("short")
    ensures !IsValidPassword("  abcdef  ")
  {
    LongEnoughIsValid();
    PaddedSixIsInvalid();
  }
}
