/** The server's name and contact rules: the short owner name shown in
    lists (first given name and first surname), the identification and
    phone validators, and the calendar title. */
module Names {
  import opened Text

  /** A serializer check: the value passes unchanged, or is refused with
      the field the error is reported under and the message shown. */
  datatype Checked<T> = Accept(value: T) | Reject(field: string, message: string)

  // ---------------------------------------------------------------------
  // Short names

  /** `obtener_nombre_corto_desde_completo(nombre_completo)`: `None` stands
      for `None`, and an empty name gives `""`. One word is kept, two are
      kept, and from three words on the first and the third are kept. A
      name of whitespace only has no words and comes back unchanged. */
  function ShortName(fullName: Option<string>): (r: string)
    ensures fullName.None? || fullName.value == "" ==> r == ""
  {
    if fullName.None? || fullName.value == "" then ""
    else
      var parts := Words(fullName.value);
      if |parts| == 1 then parts[0]
      else if |parts| == 2 then parts[0] + " " + parts[1]
      else if |parts| >= 3 then parts[0] + " " + parts[2]
      else fullName.value
  }

  /** The legacy `get_owner_name(obj)`: the same rule without the guard for
      an empty name. */
  function LegacyOwnerName(fullName: string): (r: string)
  {
    var parts := Words(fullName);
    if |parts| == 1 then parts[0]
    else if |parts| == 2 then parts[0] + " " + parts[1]
    else if |parts| >= 3 then parts[0] + " " + parts[2]
    else fullName
  }

  /** The guard is redundant: an empty name has no words and is returned
      as it is, so both versions agree on every name. */
  lemma LegacyOwnerNameAgrees(fullName: string)
    ensures LegacyOwnerName(fullName) == ShortName(Some(fullName))
  {
  }

  /** The short name read word by word: the first word alone, or the
      first with the second (two words) or with the third (three or more). */
  lemma ShortNameWords(fullName: string)
    ensures var ws := Words(fullName);
      (|ws| == 0 ==> ShortName(Some(fullName)) == fullName)
      && (|ws| == 1 ==> Words(ShortName(Some(fullName))) == [ws[0]])
      && (|ws| == 2 ==> Words(ShortName(Some(fullName))) == [ws[0], ws[1]])
      && (|ws| >= 3 ==> Words(ShortName(Some(fullName))) == [ws[0], ws[2]])
  {
    var ws := Words(fullName);
    if fullName != "" {
      if |ws| == 1 {
        WordsOfWord(ws[0]);
      } else if |ws| == 2 {
        WordsOfPair(ws[0], ws[1]);
      } else if |ws| >= 3 {
        WordsOfPair(ws[0], ws[2]);
      }
    }
  }

  /** A name of whitespace only comes back unchanged. */
  lemma BlankNameUnchanged(fullName: string)
    requires fullName != "" && AllSpace(fullName)
    ensures ShortName(Some(fullName)) == fullName
  {
    WordsOfSpace(fullName);
  }

  /** A short name has at most two words, each one a word of the full name. */
  lemma ShortNameFromInput(fullName: string)
    requires !AllSpace(fullName)
    ensures var short := Words(ShortName(Some(fullName)));
      1 <= |short| <= 2 && forall w :: w in short ==> w in Words(fullName)
  {
    WordsOfSpace(fullName);
    ShortNameWords(fullName);
  }

  /** A word followed by whitespace or by nothing is read first. */
  lemma {:induction false} TakeWordOf(w: string, rest: string)
    requires IsWord(w) && (|rest| == 0 || IsSpace(rest[0]))
    ensures TakeWord(w + rest) == w
    decreases |w|
  {
    if |w| > 1 {
      assert (w + rest)[1..] == w[1..] + rest;
      TakeWordOf(w[1..], rest);
    } else {
      assert (w + rest)[1..] == rest;
    }
  }

  /** Python `w.split()` of a single word. */
  lemma WordsOfWord(w: string)
    requires IsWord(w)
    ensures Words(w) == [w]
  {
    TakeWordOf(w, "");
    assert w + "" == w;
    assert w[|w|..] == "";
  }

  /** Two words joined by a space split back into the two. */
  lemma WordsOfPair(a: string, b: string)
    requires IsWord(a) && IsWord(b)
    ensures Words(a + " " + b) == [a, b]
  {
    var s := a + " " + b;
    TakeWordOf(a, " " + b);
    assert s == a + (" " + b);
    assert s[|a|..] == " " + b;
    assert (" " + b)[1..] == b;
    WordsOfWord(b);
  }

  // ---------------------------------------------------------------------
  // Validators

  /** `validar_numero_identificacion(valor)`: at least six characters. */
  function ValidateIdentification(value: string): (r: Checked<string>)
    ensures r.Accept? <==> |value| >= 6
    ensures r.Accept? ==> r.value == value
  {
    if |value| < 6 then Reject("identification_number", "El número de identificación debe tener al menos 6 caracteres")
    else Accept(value)
  }

  /** `valor.replace(' ', '').replace('-', '')`. */
  function CleanPhone(value: string): (r: string)
  {
    RemoveChar(RemoveChar(value, ' '), '-')
  }

  /** The characters of a phone other than spaces and hyphens. */
  function Significant(s: string): (n: nat)
    ensures n <= |s|
    decreases |s|
  {
    if |s| == 0 then 0
    else (if s[0] == ' ' || s[0] == '-' then 0 else 1) + Significant(s[1..])
  }

  /** Removing spaces and then hyphens keeps exactly the significant characters. */
  lemma {:induction false} CleanPhoneLength(s: string)
    ensures |CleanPhone(s)| == Significant(s)
    decreases |s|
  {
    if |s| > 0 {
      CleanPhoneLength(s[1..]);
      CleanPhoneCons(s);
    }
  }

  lemma CleanPhoneCons(s: string)
    requires |s| > 0
    ensures CleanPhone(s) == (if s[0] == ' ' || s[0] == '-' then "" else [s[0]]) + CleanPhone(s[1..])
  {
    var head := if s[0] == ' ' then "" else [s[0]];
    assert RemoveChar(s, ' ') == head + RemoveChar(s[1..], ' ');
    RemoveCharAppend(head, RemoveChar(s[1..], ' '), '-');
  }

  lemma {:induction false} RemoveCharAppend(a: string, b: string, c: char)
    ensures RemoveChar(a + b, c) == RemoveChar(a, c) + RemoveChar(b, c)
    decreases |a|
  {
    if |a| > 0 {
      assert (a + b)[1..] == a[1..] + b;
      RemoveCharAppend(a[1..], b, c);
    } else {
      assert a + b == b;
    }
  }

  /** `validar_telefono(valor)`: at least seven characters once spaces and
      hyphens are removed; the value is returned as it was written. */
  function ValidatePhone(value: string): (r: Checked<string>)
    ensures r.Accept? ==> r.value == value
  {
    if |CleanPhone(value)| < 7 then Reject("phone", "El teléfono debe tener al menos 7 dígitos")
    else Accept(value)
  }

  /** A phone passes exactly when it has seven characters that are neither
      spaces nor hyphens. */
  lemma ValidatePhoneIff(value: string)
    ensures ValidatePhone(value).Accept? <==> Significant(value) >= 7
  {
    CleanPhoneLength(value);
  }

  // ---------------------------------------------------------------------
  // Calendar serializer getters

  /** `get_titulo(obj)`: `"<pet> - <service>"`. */
  function Title(petName: string, serviceName: string): (r: string)
  {
    petName + " - " + serviceName
  }

  /** The title starts with the pet's name and ends with the service's. */
  lemma TitleParts(petName: string, serviceName: string)
    ensures |Title(petName, serviceName)| == |petName| + 3 + |serviceName|
    ensures Title(petName, serviceName)[..|petName|] == petName
    ensures Title(petName, serviceName)[|petName| + 3..] == serviceName
  {
  }
}
