/** Worked examples of the model, among them the seed product
    `Producto("Laptop Dell", 899.99, 5)` (sistema_inventario.py:350). */
module Escenarios {
  import opened Results
  import opened Ascii
  import opened Productos
  import opened Inventarios

  /** "laptop dell" is stored as "Laptop Dell"; five units at 899.99 are
      worth 4499.95. */
  lemma CrearLaptop()
    ensures Crear("laptop dell", 899.99, 5) == Ok(Producto("Laptop Dell", 899.99, 5))
    ensures ValorTotal(Producto("Laptop Dell", 899.99, 5)) == 4499.95
  {
    NormalizarLaptop();
  }

  /** The name normalisation of the example: nothing to strip, then each
      word capitalised. */
  lemma NormalizarLaptop()
    ensures NormalizarNombre("laptop dell") == "Laptop Dell"
  {
    StripLaptop();
    TitleLaptop();
  }

  lemma StripLaptop()
    ensures Strip("laptop dell") == "laptop dell"
  {
    var s := "laptop dell";
    assert !IsSpace(s[0]) && !IsSpace(s[|s| - 1]);
    StripOfTrimmed(s);
  }

  lemma TitleLaptop()
    ensures Title("laptop dell") == "Laptop Dell"
  {
    var s := "laptop dell";
    var t := Title(s);
    var e := "Laptop Dell";
    forall i | 0 <= i < |s| ensures t[i] == e[i] {
      TitleLetra(s, i);
    }
    assert t == e;
  }

  lemma TitleLetra(s: string, i: nat)
    requires s == "laptop dell" && i < |s|
    ensures Title(s)[i] == "Laptop Dell"[i]
  {
    assert Title(s)[i] == TitleCase(s[i], i > 0 && IsLetter(s[i - 1]));
  }

  /** Taking ten units from a product with five fails and reports both
      figures. */
  lemma ReducirDemasiado()
    ensures ReducirStock(Producto("Teclado", 45.0, 5), 10) == Err(InsufficientStock(5, 10))
  {
  }

  /** Only the product with three units is at or below the threshold of
      five. */
  lemma BajoStockDeDos()
    ensures var a := Producto("Mouse", 25.5, 3);
            var b := Producto("Monitor", 250.0, 10);
            ProductosBajoStock([a, b], 5) == [a]
  {
    var a := Producto("Mouse", 25.5, 3);
    var b := Producto("Monitor", 250.0, 10);
    var r := ProductosBajoStock([a, b], 5);
    assert a in r && b !in r;
    assert multiset(r)[a] == 1;
    assert |r| == |multiset(r)|;
    assert forall q :: q in multiset(r) ==> q == a;
    assert multiset(r) == multiset{a};
  }

  /** Adding "Mouse" again with merging accepted adds its units to the
      stored one and keeps the list at one product; with merging declined
      the list is left as it was. */
  lemma FusionarMouse()
    ensures var m := Producto("Mouse", 25.5, 10);
            var n := Producto("Mouse", 25.5, 5);
            && AgregarProducto([m], n, true) == Ok([Producto("Mouse", 25.5, 15)])
            && AgregarProducto([m], n, false) == Ok([m])
  {
    var m := Producto("Mouse", 25.5, 10);
    var n := Producto("Mouse", 25.5, 5);
    NormalizarMouse();
    assert !EsBlanco(n.nombre);
    assert EsPrimero([m], NormalizarNombre(n.nombre), 0);
    assert [m][0 := m.(cantidad := 15)] == [Producto("Mouse", 25.5, 15)];
  }

  lemma NormalizarMouse()
    ensures Strip("Mouse") == "Mouse"
    ensures NormalizarNombre("Mouse") == "Mouse"
  {
    var s := "Mouse";
    assert !IsSpace(s[0]) && !IsSpace(s[|s| - 1]);
    StripOfTrimmed(s);
    var t := Title(s);
    forall i | 0 <= i < |s| ensures t[i] == s[i] {
      assert t[i] == TitleCase(s[i], i > 0 && IsLetter(s[i - 1]));
    }
    assert t == s;
  }
}
