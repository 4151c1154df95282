/** The read-only query handlers over the sorted catalog. Each is a pure function
    of the catalog and the request parameters; an empty match is answered with
    `NotFound` and the handler's message (an HTTP 404 with that text). */
module Queries {
  import opened Wrappers
  import opened Text
  import opened Seqs
  import opened Catalog

  /** A handler's answer: the matching records, serialised as a JSON array, or a
      404 with a plain-text message. */
  datatype Response<T> = Found(items: seq<T>) | NotFound(msg: string)

  const AuthorNotFound: string := "Autor no encontrado"

  const NoWorksPrefix: string := "No se encontraron obras del a\U{00F1}o "

  /** Turns a filter's result into the answer: an empty result is a 404. */
  function Respond<T>(filtered: seq<T>, msg: string): (r: Response<T>)
    ensures r.Found? <==> filtered != []
    ensures r.Found? ==> r.items == filtered
    ensures r.NotFound? ==> r.msg == msg
  {
    if |filtered| == 0 then NotFound(msg) else Found(filtered)
  }

  /** The items of an answer; a 404 carries none. */
  function Items<T>(r: Response<T>): seq<T> {
    if r.Found? then r.items else []
  }

  // The matching rules, each against a query already lowered by the handler.

  function SurnameIs(apellido: string): Autor -> bool {
    (autor: Autor) => Lower(autor.autor_apellido) == apellido
  }

  function NameIs(nombre: string): Autor -> bool {
    (autor: Autor) => Lower(autor.autor_nombre) == nombre
  }

  function NameAndSurnameAre(nombre: string, apellido: string): Autor -> bool {
    (autor: Autor) => Lower(autor.autor_nombre) == nombre && Lower(autor.autor_apellido) == apellido
  }

  function NameIsSurnameStarts(nombre: string, prefijo: string): Autor -> bool {
    (autor: Autor) => Lower(autor.autor_nombre) == nombre && StartsWith(Lower(autor.autor_apellido), prefijo)
  }

  /** `GET /api`: the whole catalog, in its loaded (sorted) order, even when empty. */
  function ListAll(datos: seq<Autor>): (r: Response<Autor>)
    ensures r.Found? && r.items == datos
  {
    Found(datos)
  }

  /** `GET /api/apellido/:autor_apellido`: the authors whose surname equals the
      query, ignoring case; nothing else, so a surname that merely starts with
      the query is not an answer. */
  function FindBySurname(datos: seq<Autor>, autor_apellido: string): (r: Response<Autor>)
    ensures forall a :: a in Items(r) <==> a in datos && Lower(a.autor_apellido) == Lower(autor_apellido)
    ensures IsSubseq(Items(r), datos)
    ensures forall a ::
              multiset(Items(r))[a] ==
              (if Lower(a.autor_apellido) == Lower(autor_apellido) then multiset(datos)[a] else 0)
    ensures r.Found? <==> exists a :: a in datos && Lower(a.autor_apellido) == Lower(autor_apellido)
    ensures r.NotFound? ==> r.msg == AuthorNotFound
  {
    var apellido := Lower(autor_apellido);
    FilterMultiplicity(datos, SurnameIs(apellido));
    Respond(Filter(datos, SurnameIs(apellido)), AuthorNotFound)
  }

  /** `GET /api/nombre_apellido/:autor_nombre/:autor_apellido`: the authors whose
      name and surname both equal the query, ignoring case. */
  function FindByNameAndSurname(datos: seq<Autor>, autor_nombre: string, autor_apellido: string): (r: Response<Autor>)
    ensures forall a :: a in Items(r) <==>
      a in datos && Lower(a.autor_nombre) == Lower(autor_nombre) && Lower(a.autor_apellido) == Lower(autor_apellido)
    ensures IsSubseq(Items(r), datos)
    ensures forall a ::
              multiset(Items(r))[a] ==
              (if Lower(a.autor_nombre) == Lower(autor_nombre) && Lower(a.autor_apellido) == Lower(autor_apellido)
               then multiset(datos)[a] else 0)
    ensures r.NotFound? <==> Items(r) == []
    ensures r.NotFound? ==> r.msg == AuthorNotFound
  {
    var nombre := Lower(autor_nombre);
    var apellido := Lower(autor_apellido);
    FilterMultiplicity(datos, NameAndSurnameAre(nombre, apellido));
    Respond(Filter(datos, NameAndSurnameAre(nombre, apellido)), AuthorNotFound)
  }

  /** `!apellido`: the query parameter is absent or the empty string. */
  predicate NoPrefix(apellido: Option<string>) {
    apellido.None? || apellido.value == ""
  }

  /** `GET /api/nombre/:nombre?apellido=...`: the authors whose name equals the
      query, ignoring case, and, when a non-empty `apellido` is given, whose
      lowered surname starts with the lowered `apellido`. */
  function FindByName(datos: seq<Autor>, nombre: string, apellido: Option<string>): (r: Response<Autor>)
    ensures forall a :: a in Items(r) <==>
      && a in datos
      && Lower(a.autor_nombre) == Lower(nombre)
      && (!NoPrefix(apellido) ==> StartsWith(Lower(a.autor_apellido), Lower(apellido.value)))
    ensures IsSubseq(Items(r), datos)
    ensures forall a ::
              multiset(Items(r))[a] ==
              (if Lower(a.autor_nombre) == Lower(nombre)
                  && (!NoPrefix(apellido) ==> StartsWith(Lower(a.autor_apellido), Lower(apellido.value)))
               then multiset(datos)[a] else 0)
    ensures r.NotFound? <==> Items(r) == []
    ensures r.NotFound? ==> r.msg == AuthorNotFound
  {
    var nombre' := Lower(nombre);
    if NoPrefix(apellido) then
      FilterMultiplicity(datos, NameIs(nombre'));
      Respond(Filter(datos, NameIs(nombre')), AuthorNotFound)
    else
      FilterMultiplicity(datos, NameIsSurnameStarts(nombre', Lower(apellido.value)));
      Respond(Filter(datos, NameIsSurnameStarts(nombre', Lower(apellido.value))), AuthorNotFound)
  }

  /** `datos.flatMap(autor => autor.obras)`: every author's works, author after
      author in catalog order. */
  function AllWorks(datos: seq<Autor>): (r: seq<Obra>)
    ensures forall o :: o in r <==> exists a :: a in datos && o in a.obras
    ensures |r| == TotalWorks(datos)
  {
    if datos == [] then [] else datos[0].obras + AllWorks(datos[1..])
  }

  /** Flattening a catalog made of two parts is flattening each part and joining
      the results, so the works keep catalog order and every repeat. */
  lemma {:induction false} AllWorksAppend(x: seq<Autor>, y: seq<Autor>)
    ensures AllWorks(x + y) == AllWorks(x) + AllWorks(y)
  {
    if x != [] {
      assert (x + y)[1..] == x[1..] + y;
      AllWorksAppend(x[1..], y);
    } else {
      assert x + y == y;
    }
  }

  /** A single author flattens to its own works, unchanged. */
  lemma AllWorksSingle(a: Autor)
    ensures AllWorks([a]) == a.obras
  {
  }

  function TotalWorks(datos: seq<Autor>): nat {
    if datos == [] then 0 else |datos[0].obras| + TotalWorks(datos[1..])
  }

  /** `obra.edicion === year`, where a NaN year equals nothing. */
  function EditionIs(year: Option<int>): (matches: Obra -> bool)
    ensures year.None? ==> forall o :: !matches(o)
    ensures year.Some? ==> forall o :: matches(o) <==> o.edicion == year.value
  {
    (obra: Obra) => year.Some? && obra.edicion == year.value
  }

  /** How the year appears in the not-found message: its decimal text, or NaN. */
  function YearText(year: Option<int>): string {
    if year.Some? then IntToString(year.value) else "NaN"
  }

  /** The number of works of edition `year` in one author's list. */
  function CountEdition(obras: seq<Obra>, year: int): nat {
    if obras == [] then 0
    else (if obras[0].edicion == year then 1 else 0) + CountEdition(obras[1..], year)
  }

  /** The number of works of edition `year` across the catalog. */
  function CountEditionAll(datos: seq<Autor>, year: int): nat {
    if datos == [] then 0 else CountEdition(datos[0].obras, year) + CountEditionAll(datos[1..], year)
  }

  /** `GET /api/edicion/:year`: the works, of every author, whose edition is the
      parsed year, as one flat list; an unparseable year matches nothing. */
  function FindByEditionYear(datos: seq<Autor>, year: string): (r: Response<Obra>)
    ensures forall o :: o in Items(r) <==>
      ParseInt(year).Some? && o.edicion == ParseInt(year).value && exists a :: a in datos && o in a.obras
    ensures ParseInt(year).None? ==> r.NotFound?
    ensures ParseInt(year).Some? ==> |Items(r)| == CountEditionAll(datos, ParseInt(year).value)
    ensures r.NotFound? <==> Items(r) == []
    ensures r.NotFound? ==> r.msg == NoWorksPrefix + YearText(ParseInt(year))
  {
    var y := ParseInt(year);
    var obras := Filter(AllWorks(datos), EditionIs(y));
    CountFlattened(datos, y);
    Respond(obras, NoWorksPrefix + YearText(y))
  }

  lemma {:induction false} CountFiltered(obras: seq<Obra>, year: Option<int>)
    ensures |Filter(obras, EditionIs(year))| == if year.Some? then CountEdition(obras, year.value) else 0
  {
    if obras != [] {
      CountFiltered(obras[1..], year);
    }
  }

  /** Filtering the flattened works by year finds as many works as there are
      works of that year across all authors. */
  lemma {:induction false} CountFlattened(datos: seq<Autor>, year: Option<int>)
    ensures |Filter(AllWorks(datos), EditionIs(year))| == if year.Some? then CountEditionAll(datos, year.value) else 0
  {
    if datos != [] {
      FilterConcat(datos[0].obras, AllWorks(datos[1..]), EditionIs(year));
      CountFiltered(datos[0].obras, year);
      CountFlattened(datos[1..], year);
    }
  }

  // Case-insensitivity: a query matters only through its lowered form.

  lemma SurnameQueryCaseInsensitive(datos: seq<Autor>, q1: string, q2: string)
    requires Lower(q1) == Lower(q2)
    ensures FindBySurname(datos, q1) == FindBySurname(datos, q2)
    ensures FindBySurname(datos, Lower(q1)) == FindBySurname(datos, q1)
  {
    LowerIdempotent(q1);
  }

  lemma NameAndSurnameQueryCaseInsensitive(datos: seq<Autor>, n1: string, s1: string, n2: string, s2: string)
    requires Lower(n1) == Lower(n2) && Lower(s1) == Lower(s2)
    ensures FindByNameAndSurname(datos, n1, s1) == FindByNameAndSurname(datos, n2, s2)
    ensures FindByNameAndSurname(datos, Lower(n1), Lower(s1)) == FindByNameAndSurname(datos, n1, s1)
  {
    LowerIdempotent(n1);
    LowerIdempotent(s1);
  }

  lemma NameQueryCaseInsensitive(datos: seq<Autor>, n1: string, p1: string, n2: string, p2: string)
    requires Lower(n1) == Lower(n2) && Lower(p1) == Lower(p2)
    ensures FindByName(datos, n1, Some(p1)) == FindByName(datos, n2, Some(p2))
    ensures FindByName(datos, n1, None) == FindByName(datos, n2, None)
    ensures FindByName(datos, Lower(n1), Some(Lower(p1))) == FindByName(datos, n1, Some(p1))
  {
    LowerIdempotent(n1);
    LowerIdempotent(p1);
    assert p1 == "" <==> p2 == "";
    assert p1 == "" <==> Lower(p1) == "";
  }

  // The name query with a surname prefix.

  /** Giving a prefix can only narrow the answer: what it returns is, in the same
      order, part of what the name alone returns. */
  lemma PrefixNarrowsNameQuery(datos: seq<Autor>, nombre: string, apellido: string)
    ensures IsSubseq(Items(FindByName(datos, nombre, Some(apellido))), Items(FindByName(datos, nombre, None)))
    ensures FindByName(datos, nombre, Some(apellido)).Found? ==> FindByName(datos, nombre, None).Found?
  {
    var n := Lower(nombre);
    if apellido != "" {
      FilterStronger(datos, NameIs(n), NameIsSurnameStarts(n, Lower(apellido)));
    } else {
      SubseqReflexive(Items(FindByName(datos, nombre, None)));
    }
  }

  /** Matching is a plain prefix test: a longer prefix that extends a shorter one
      can only narrow the answer; the prefix's length bounds nothing else. */
  lemma LongerPrefixNarrowsNameQuery(datos: seq<Autor>, nombre: string, shorter: string, longer: string)
    requires StartsWith(Lower(longer), Lower(shorter))
    ensures IsSubseq(Items(FindByName(datos, nombre, Some(longer))), Items(FindByName(datos, nombre, Some(shorter))))
  {
    var n := Lower(nombre);
    if shorter == "" {
      PrefixNarrowsNameQuery(datos, nombre, longer);
    } else {
      assert longer != "";
      forall a | a in datos && NameIsSurnameStarts(n, Lower(longer))(a)
        ensures NameIsSurnameStarts(n, Lower(shorter))(a)
      {
        StartsWithFacts(Lower(a.autor_apellido), Lower(longer), Lower(shorter));
      }
      FilterStronger(datos, NameIsSurnameStarts(n, Lower(shorter)), NameIsSurnameStarts(n, Lower(longer)));
    }
  }

  /** Treating the empty prefix as absent does not change the answer: every
      surname starts with the empty string. */
  lemma EmptyPrefixMatchesEveryone(datos: seq<Autor>, nombre: string)
    ensures Respond(Filter(datos, NameIsSurnameStarts(Lower(nombre), Lower(""))), AuthorNotFound)
         == FindByName(datos, nombre, None)
  {
    forall a | a in datos
      ensures NameIsSurnameStarts(Lower(nombre), Lower(""))(a) == NameIs(Lower(nombre))(a)
    {
      StartsWithFacts(Lower(a.autor_apellido), "", "");
    }
    FilterExtensional(datos, NameIsSurnameStarts(Lower(nombre), Lower("")), NameIs(Lower(nombre)));
  }

  // Order of the answers.

  /** Over a catalog sorted by surname, every author query answers in surname order. */
  lemma AnswersAreSorted(datos: seq<Autor>, collate: (string, string) -> int, nombre: string, apellido: string, prefijo: Option<string>)
    requires SortedBySurname(datos, collate)
    ensures SortedBySurname(Items(ListAll(datos)), collate)
    ensures SortedBySurname(Items(FindBySurname(datos, apellido)), collate)
    ensures SortedBySurname(Items(FindByNameAndSurname(datos, nombre, apellido)), collate)
    ensures SortedBySurname(Items(FindByName(datos, nombre, prefijo)), collate)
  {
    SubseqOfSortedIsSorted(Items(FindBySurname(datos, apellido)), datos, collate);
    SubseqOfSortedIsSorted(Items(FindByNameAndSurname(datos, nombre, apellido)), datos, collate);
    SubseqOfSortedIsSorted(Items(FindByName(datos, nombre, prefijo)), datos, collate);
  }

  // The edition-year query.

  /** Each author's works of the given year, author after author. */
  function WorksOfYearByAuthor(datos: seq<Autor>, year: Option<int>): seq<Obra> {
    if datos == [] then [] else Filter(datos[0].obras, EditionIs(year)) + WorksOfYearByAuthor(datos[1..], year)
  }

  /** The flat answer is each author's matching works, concatenated in catalog
      order: flattening then filtering is filtering then flattening. */
  lemma {:induction false} EditionYearByAuthor(datos: seq<Autor>, year: string)
    ensures Items(FindByEditionYear(datos, year)) == WorksOfYearByAuthor(datos, ParseInt(year))
  {
    FilterPerAuthor(datos, ParseInt(year));
  }

  lemma {:induction false} FilterPerAuthor(datos: seq<Autor>, year: Option<int>)
    ensures Filter(AllWorks(datos), EditionIs(year)) == WorksOfYearByAuthor(datos, year)
  {
    if datos != [] {
      FilterConcat(datos[0].obras, AllWorks(datos[1..]), EditionIs(year));
      FilterPerAuthor(datos[1..], year);
    }
  }

  /** The not-found message carries the year: parsing the text after the fixed
      part gives the year back, and an unparseable year reads NaN. */
  lemma NotFoundMessageNamesYear(datos: seq<Autor>, year: string)
    requires FindByEditionYear(datos, year).NotFound?
    ensures var msg := FindByEditionYear(datos, year).msg;
      && StartsWith(msg, NoWorksPrefix)
      && (ParseInt(year).Some? ==> ParseInt(msg[|NoWorksPrefix|..]) == ParseInt(year))
      && (ParseInt(year).None? ==> msg[|NoWorksPrefix|..] == "NaN")
  {
    var msg := FindByEditionYear(datos, year).msg;
    assert msg[..|NoWorksPrefix|] == NoWorksPrefix;
    assert msg[|NoWorksPrefix|..] == YearText(ParseInt(year));
    if ParseInt(year).Some? {
      ParseIntOfIntToString(ParseInt(year).value, "");
      assert msg[|NoWorksPrefix|..] + "" == msg[|NoWorksPrefix|..];
    }
  }
}
