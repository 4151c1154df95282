/** Concrete requests against a one-author catalog. */
module Scenarios {
  import opened Wrappers
  import opened Text
  import opened Catalog
  import opened Seqs
  import opened Queries

  const Obra1967: Obra := Obra(1967, [])
  const Obra1985: Obra := Obra(1985, [])

  /** Gabriel García Márquez with two works, of 1967 and 1985. */
  const Garcia: Autor := Autor("Gabriel", "Garc\U{00ED}a M\U{00E1}rquez", [Obra1967, Obra1985])

  lemma ParseYearScenario()
    ensures ParseInt("1967") == Some(1967)
  {
    LeadingDigitsOfDigits("1967", "");
    assert "1967" + "" == "1967";
    assert "1967"[..3] == "196" && "196"[..2] == "19" && "19"[..1] == "1" && "1"[..0] == "";
  }

  /** The year query returns exactly the one work of that year, ungrouped. */
  lemma EditionYearScenario()
    ensures FindByEditionYear([Garcia], "1967") == Found([Obra1967])
  {
    ParseYearScenario();
    var works := AllWorks([Garcia]);
    assert works == [Obra1967, Obra1985];
    assert Filter(works, EditionIs(Some(1967))) == [Obra1967] by {
      assert works[1..] == [Obra1985];
    }
  }

  /** A year with no digits is NaN, which matches no work. */
  lemma UnparseableYearScenario()
    ensures FindByEditionYear([Garcia], "abc") == NotFound("No se encontraron obras del a\U{00F1}o NaN")
  {
  }

  /** The prefix "Gar" selects the author whose surname starts with "García". */
  lemma NamePrefixScenario()
    ensures FindByName([Garcia], "Gabriel", Some("Gar")) == Found([Garcia])
  {
    assert Lower("Gabriel") == "gabriel";
    assert Lower("Gar") == "gar";
    assert Lower(Garcia.autor_apellido)[..3] == "gar";
  }

  /** An unknown surname is a 404 with the fixed message. */
  lemma UnknownSurnameScenario()
    ensures FindBySurname([Garcia], "zzznoexist") == NotFound("Autor no encontrado")
  {
    assert Lower("zzznoexist")[0] == 'z';
  }

  /** Upper- and lower-case spellings of an accented surname give the same answer. */
  lemma AccentedSurnameScenario()
    ensures FindBySurname([Garcia], "GARC\U{00CD}A M\U{00C1}RQUEZ") == FindBySurname([Garcia], "garc\U{00ED}a m\U{00E1}rquez")
    ensures FindBySurname([Garcia], "garc\U{00ED}a m\U{00E1}rquez") == Found([Garcia])
  {
    assert Lower("GARC\U{00CD}A M\U{00C1}RQUEZ") == "garc\U{00ED}a m\U{00E1}rquez";
    assert Lower(Garcia.autor_apellido) == "garc\U{00ED}a m\U{00E1}rquez";
    SurnameQueryCaseInsensitive([Garcia], "GARC\U{00CD}A M\U{00C1}RQUEZ", "garc\U{00ED}a m\U{00E1}rquez");
  }
}
