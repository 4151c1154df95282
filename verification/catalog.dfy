/** The catalog of authors: its records and the startup step that sorts it in place
    by surname with the locale comparator. */
module Catalog {
  import opened Seqs

  /** A work; `edicion` is the edition year, and every other attribute of the
      record is carried along unexamined. */
  datatype Obra = Obra(edicion: int, atributos: seq<(string, string)>)

  /** An author record, with the field names of the catalog document. */
  datatype Autor = Autor(autor_nombre: string, autor_apellido: string, obras: seq<Obra>)

  /** What the sort needs of `localeCompare`: reading `collate(x, y) <= 0` as
      "x may come before y", any two strings are comparable and the relation is
      transitive (a total preorder; distinct strings may collate as equal). */
  ghost predicate TotalPreorder(collate: (string, string) -> int) {
    && (forall x, y :: collate(x, y) <= 0 || collate(y, x) <= 0)
    && (forall x, y, z :: collate(x, y) <= 0 && collate(y, z) <= 0 ==> collate(x, z) <= 0)
  }

  predicate InOrder(a: Autor, b: Autor, collate: (string, string) -> int) {
    collate(a.autor_apellido, b.autor_apellido) <= 0
  }

  /** Every author may come before every later one, by surname. */
  predicate SortedBySurname(s: seq<Autor>, collate: (string, string) -> int) {
    forall i, j :: 0 <= i < j < |s| ==> InOrder(s[i], s[j], collate)
  }

  /** `datos.sort((a, b) => a.autor_apellido.localeCompare(b.autor_apellido, 'es-ES'))`,
      as an insertion sort that moves an author left only past authors that
      collate strictly after it. */
  method SortBySurname(datos: array<Autor>, collate: (string, string) -> int)
    requires TotalPreorder(collate)
    modifies datos
    ensures SortedBySurname(datos[..], collate)
    ensures forall k :: 0 < k < datos.Length ==> InOrder(datos[k - 1], datos[k], collate)
    ensures multiset(datos[..]) == old(multiset(datos[..]))
  {
    var i := 0;
    while i < datos.Length
      invariant 0 <= i <= datos.Length
      invariant SortedBySurname(datos[..i], collate)
      invariant multiset(datos[..]) == old(multiset(datos[..]))
    {
      InsertLast(datos, i, collate);
      i := i + 1;
    }
    assert datos[..] == datos[..datos.Length];
  }

  /** One pass of the insertion sort: with `datos[..i]` sorted, the author at `i`
      is swapped leftwards into place, and `datos[..i + 1]` is sorted. */
  method InsertLast(datos: array<Autor>, i: nat, collate: (string, string) -> int)
    requires TotalPreorder(collate)
    requires i < datos.Length && SortedBySurname(datos[..i], collate)
    modifies datos
    ensures SortedBySurname(datos[..i + 1], collate)
    ensures multiset(datos[..]) == old(multiset(datos[..]))
    ensures datos[i + 1..] == old(datos[i + 1..])
  {
    var j := i;
    while 0 < j && !InOrder(datos[j - 1], datos[j], collate)
      invariant 0 <= j <= i
      invariant forall k, l :: 0 <= k < l <= i && k != j && l != j ==> InOrder(datos[k], datos[l], collate)
      invariant forall l :: j < l <= i ==> InOrder(datos[j], datos[l], collate)
      invariant multiset(datos[..]) == old(multiset(datos[..]))
      invariant datos[i + 1..] == old(datos[i + 1..])
    {
      Swap(datos, j - 1, j);
      j := j - 1;
    }
    forall k, l | 0 <= k < l <= i
      ensures InOrder(datos[k], datos[l], collate)
    {
      if l == j && k < j - 1 {
        assert InOrder(datos[k], datos[j - 1], collate);
      }
    }
  }

  /** Exchanges two entries of the array and nothing else. */
  method Swap(datos: array<Autor>, i: nat, j: nat)
    requires i < datos.Length && j < datos.Length
    modifies datos
    ensures datos[..] == old(datos[..])[i := old(datos[j])][j := old(datos[i])]
    ensures multiset(datos[..]) == old(multiset(datos[..]))
  {
    datos[i], datos[j] := datos[j], datos[i];
  }

  /** Startup: the loaded records become the catalog, sorted by surname. */
  method Load(loaded: seq<Autor>, collate: (string, string) -> int) returns (datos: seq<Autor>)
    requires TotalPreorder(collate)
    ensures SortedBySurname(datos, collate)
    ensures multiset(datos) == multiset(loaded)
  {
    var a := new Autor[|loaded|](i requires 0 <= i < |loaded| => loaded[i]);
    assert a[..] == loaded;
    SortBySurname(a, collate);
    datos := a[..];
  }

  /** A subsequence of a sorted catalog is sorted, so every filtered answer lists
      its authors in surname order. */
  lemma {:induction false} SubseqOfSortedIsSorted(r: seq<Autor>, s: seq<Autor>, collate: (string, string) -> int)
    requires IsSubseq(r, s) && SortedBySurname(s, collate)
    ensures SortedBySurname(r, collate)
    decreases |s|
  {
    if r != [] {
      if r[0] == s[0] && IsSubseq(r[1..], s[1..]) {
        SubseqOfSortedIsSorted(r[1..], s[1..], collate);
        SubseqMembers(r[1..], s[1..]);
        forall j | 0 < j < |r|
          ensures InOrder(r[0], r[j], collate)
        {
          assert r[j] == r[1..][j - 1];
          assert r[j] in s[1..];
          var k :| 0 <= k < |s[1..]| && s[1..][k] == r[j];
          assert s[k + 1] == r[j];
        }
      } else {
        SubseqOfSortedIsSorted(r, s[1..], collate);
      }
    }
  }
}
