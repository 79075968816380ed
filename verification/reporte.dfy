/** The statistics `generar_reporte_inventario` prints
    (sistema_inventario.py:180-223), computed instead of printed. */
module Reportes {
  import opened Results
  import opened Seqs
  import opened Productos
  import opened Inventarios

  datatype Reporte = Reporte(
    totalProductos: nat,
    totalUnidades: int,
    valorTotal: real,
    precioPromedio: real,
    masCaro: Producto,
    masBarato: Producto,
    mayorValor: Producto,
    menorValor: Producto,
    bajoStock: seq<Producto>)

  /** The units in stock, summed over the list. */
  function TotalUnidades(inv: Inventario): (u: int)
    ensures (forall k :: 0 <= k < |inv| ==> inv[k].cantidad >= 0) ==> u >= 0
    decreases |inv|
  {
    if inv == [] then 0
    else
      assert forall i :: 1 <= i < |inv| ==> inv[1..][i - 1] == inv[i];
      inv[0].cantidad + TotalUnidades(inv[1..])
  }

  /** The unit prices, summed over the list; the report divides this by the
      number of products to get the average price. */
  function SumaPrecios(inv: Inventario): (s: real)
    ensures (forall k :: 0 <= k < |inv| ==> inv[k].precio >= 0.0) ==> s >= 0.0
    decreases |inv|
  {
    if inv == [] then 0.0 else inv[0].precio + SumaPrecios(inv[1..])
  }

  function Precio(p: Producto): real { p.precio }

  /** The report of an empty inventory is the "empty" message: no
      statistics.  Otherwise every figure is taken over the whole list;
      `max`/`min` keep the first product that reaches the extreme. */
  function GenerarReporte(inv: Inventario): (r: Option<Reporte>)
    ensures r.None? <==> |inv| == 0
    ensures r.Some? ==> r.value.totalProductos == |inv|
    ensures r.Some? ==> r.value.masCaro in inv && r.value.masBarato in inv
    ensures r.Some? ==> r.value.mayorValor in inv && r.value.menorValor in inv
    ensures r.Some? ==> forall q :: q in inv ==> r.value.masBarato.precio <= q.precio <= r.value.masCaro.precio
    ensures r.Some? ==> forall q :: q in inv ==>
              ValorTotal(r.value.menorValor) <= ValorTotal(q) <= ValorTotal(r.value.mayorValor)
    ensures r.Some? ==> forall q :: q in r.value.bajoStock <==> q in inv && StockBajo(q)
    ensures r.Some? ==> r.value.valorTotal == ValorInventario(inv)
    ensures r.Some? ==> r.value.totalUnidades == TotalUnidades(inv)
    ensures r.Some? ==> r.value.precioPromedio == SumaPrecios(inv) / |inv| as real
    ensures r.Some? ==> r.value.bajoStock == ProductosBajoStock(inv, LimiteStockBajo)
  {
    if inv == [] then None
    else
      var caro := FirstMaxIndex(inv, Precio);
      var barato := FirstMinIndex(inv, Precio);
      var mayor := FirstMaxIndex(inv, ValorTotal);
      var menor := FirstMinIndex(inv, ValorTotal);
      Some(Reporte(
        |inv|,
        TotalUnidades(inv),
        ValorInventario(inv),
        SumaPrecios(inv) / |inv| as real,
        inv[caro], inv[barato], inv[mayor], inv[menor],
        ProductosBajoStock(inv, LimiteStockBajo)))
  }

  /** The four extremes of the report are the first extremes of the list. */
  lemma ReporteExtremos(inv: Inventario)
    requires |inv| > 0
    ensures var r := GenerarReporte(inv).value;
            && r.masCaro == inv[FirstMaxIndex(inv, Precio)]
            && r.masBarato == inv[FirstMinIndex(inv, Precio)]
            && r.mayorValor == inv[FirstMaxIndex(inv, ValorTotal)]
            && r.menorValor == inv[FirstMinIndex(inv, ValorTotal)]
  {
  }

  /** The most expensive product is the first one at the top price: every
      earlier product is strictly cheaper. */
  lemma MasCaroEsElPrimero(inv: Inventario)
    requires |inv| > 0
    ensures exists i :: 0 <= i < |inv| && inv[i] == GenerarReporte(inv).value.masCaro
                        && forall j :: 0 <= j < i ==> inv[j].precio < inv[i].precio
  {
    var i := FirstMaxIndex(inv, Precio);
    ReporteExtremos(inv);
    assert forall j :: 0 <= j < i ==> Precio(inv[j]) < Precio(inv[i]);
    assert 0 <= i < |inv| && inv[i] == GenerarReporte(inv).value.masCaro;
  }

  /** The cheapest product is the first one at the bottom price. */
  lemma MasBaratoEsElPrimero(inv: Inventario)
    requires |inv| > 0
    ensures exists i :: 0 <= i < |inv| && inv[i] == GenerarReporte(inv).value.masBarato
                        && forall j :: 0 <= j < i ==> inv[i].precio < inv[j].precio
  {
    var i := FirstMinIndex(inv, Precio);
    ReporteExtremos(inv);
    assert forall j :: 0 <= j < i ==> Precio(inv[i]) < Precio(inv[j]);
    assert 0 <= i < |inv| && inv[i] == GenerarReporte(inv).value.masBarato;
  }

  /** The product of largest value is the first one at the top value. */
  lemma MayorValorEsElPrimero(inv: Inventario)
    requires |inv| > 0
    ensures exists i :: 0 <= i < |inv| && inv[i] == GenerarReporte(inv).value.mayorValor
                        && forall j :: 0 <= j < i ==> ValorTotal(inv[j]) < ValorTotal(inv[i])
  {
    var i := FirstMaxIndex(inv, ValorTotal);
    ReporteExtremos(inv);
    assert forall j :: 0 <= j < i ==> ValorTotal(inv[j]) < ValorTotal(inv[i]);
    assert 0 <= i < |inv| && inv[i] == GenerarReporte(inv).value.mayorValor;
  }

  /** The product of smallest value is the first one at the bottom value. */
  lemma MenorValorEsElPrimero(inv: Inventario)
    requires |inv| > 0
    ensures exists i :: 0 <= i < |inv| && inv[i] == GenerarReporte(inv).value.menorValor
                        && forall j :: 0 <= j < i ==> ValorTotal(inv[i]) < ValorTotal(inv[j])
  {
    var i := FirstMinIndex(inv, ValorTotal);
    ReporteExtremos(inv);
    assert forall j :: 0 <= j < i ==> ValorTotal(inv[i]) < ValorTotal(inv[j]);
    assert 0 <= i < |inv| && inv[i] == GenerarReporte(inv).value.menorValor;
  }

  /** `n` copies of `x` added up: `n * x` without a product, so that sums of
      prices can be bounded by additions alone. */
  function Veces(n: nat, x: real): real {
    if n == 0 then 0.0 else x + Veces(n - 1, x)
  }

  lemma {:induction false} VecesEsProducto(n: nat, x: real)
    ensures Veces(n, x) == n as real * x
  {
    if n > 0 {
      VecesEsProducto(n - 1, x);
      assert n as real * x == (n - 1) as real * x + x;
    }
  }

  /** Summing prices of at least `lo` gives at least `n * lo`. */
  lemma {:induction false} SumaPreciosCotaInferior(inv: Inventario, lo: real)
    requires forall i :: 0 <= i < |inv| ==> lo <= inv[i].precio
    ensures Veces(|inv|, lo) <= SumaPrecios(inv)
    decreases |inv|
  {
    if inv != [] {
      SumaPreciosCotaInferior(inv[1..], lo);
    }
  }

  /** Summing prices of at most `hi` gives at most `n * hi`. */
  lemma {:induction false} SumaPreciosCotaSuperior(inv: Inventario, hi: real)
    requires forall i :: 0 <= i < |inv| ==> inv[i].precio <= hi
    ensures SumaPrecios(inv) <= Veces(|inv|, hi)
    decreases |inv|
  {
    if inv != [] {
      SumaPreciosCotaSuperior(inv[1..], hi);
    }
  }

  /** The average price lies between the cheapest and the dearest price. */
  lemma PromedioEntreExtremos(inv: Inventario)
    requires |inv| > 0
    ensures var r := GenerarReporte(inv).value;
            r.masBarato.precio <= r.precioPromedio <= r.masCaro.precio
  {
    var r := GenerarReporte(inv).value;
    PromedioAcotado(inv, r.masBarato.precio, r.masCaro.precio);
  }

  /** The mean of prices between `lo` and `hi` lies between them. */
  lemma PromedioAcotado(inv: Inventario, lo: real, hi: real)
    requires |inv| > 0
    requires forall i :: 0 <= i < |inv| ==> lo <= inv[i].precio <= hi
    ensures lo <= SumaPrecios(inv) / |inv| as real <= hi
  {
    PromedioCotaInferior(inv, lo);
    PromedioCotaSuperior(inv, hi);
  }

  lemma PromedioCotaInferior(inv: Inventario, lo: real)
    requires |inv| > 0
    requires forall i :: 0 <= i < |inv| ==> lo <= inv[i].precio
    ensures lo <= SumaPrecios(inv) / |inv| as real
  {
    SumaPreciosCotaInferior(inv, lo);
    CocienteMinimo(SumaPrecios(inv), |inv|, lo);
  }

  lemma PromedioCotaSuperior(inv: Inventario, hi: real)
    requires |inv| > 0
    requires forall i :: 0 <= i < |inv| ==> inv[i].precio <= hi
    ensures SumaPrecios(inv) / |inv| as real <= hi
  {
    SumaPreciosCotaSuperior(inv, hi);
    CocienteMaximo(SumaPrecios(inv), |inv|, hi);
  }

  /** Dividing a sum of `n` values of at least `lo` by `n` gives at least
      `lo`. */
  lemma CocienteMinimo(suma: real, n: nat, lo: real)
    requires n > 0 && Veces(n, lo) <= suma
    ensures lo <= suma / n as real
  {
    VecesEsProducto(n, lo);
    assert (suma / n as real) * n as real == suma;
  }

  /** Dividing a sum of `n` values of at most `hi` by `n` gives at most
      `hi`. */
  lemma CocienteMaximo(suma: real, n: nat, hi: real)
    requires n > 0 && suma <= Veces(n, hi)
    ensures suma / n as real <= hi
  {
    VecesEsProducto(n, hi);
    assert (suma / n as real) * n as real == suma;
  }

  /** Units of an inventory without negative stock are never negative. */
  lemma {:induction false} UnidadesNoNegativas(inv: Inventario)
    requires forall i :: 0 <= i < |inv| ==> inv[i].cantidad >= 0
    ensures TotalUnidades(inv) >= 0
    decreases |inv|
  {
    if inv != [] {
      UnidadesNoNegativas(inv[1..]);
    }
  }

  lemma {:induction false} UnidadesConcatenacion(a: Inventario, b: Inventario)
    ensures TotalUnidades(a + b) == TotalUnidades(a) + TotalUnidades(b)
    decreases |a|
  {
    if a != [] {
      assert (a + b)[0] == a[0];
      assert (a + b)[1..] == a[1..] + b;
      UnidadesConcatenacion(a[1..], b);
    } else {
      assert a + b == b;
    }
  }

  lemma {:induction false} UnidadesReemplazo(inv: Inventario, i: int, q: Producto)
    requires 0 <= i < |inv|
    ensures TotalUnidades(inv[i := q]) == TotalUnidades(inv) - inv[i].cantidad + q.cantidad
    decreases |inv|
  {
    if i > 0 {
      assert inv[i := q][1..] == inv[1..][i - 1 := q];
      UnidadesReemplazo(inv[1..], i - 1, q);
    } else {
      assert inv[i := q][1..] == inv[1..];
    }
  }

  /** A successful add puts the new product's units into the inventory,
      whether it is appended or merged; a cancelled add changes nothing. */
  lemma AgregarUnidades(inv: Inventario, p: Producto, fusionar: bool)
    requires AgregarProducto(inv, p, fusionar).Ok?
    ensures TotalUnidades(AgregarProducto(inv, p, fusionar).value) ==
              TotalUnidades(inv) + if Contiene(inv, NormalizarNombre(p.nombre)) && !fusionar then 0 else p.cantidad
  {
    var clave := NormalizarNombre(p.nombre);
    var r := AgregarProducto(inv, p, fusionar).value;
    assert !EsBlanco(p.nombre);
    match IndiceDe(inv, clave)
    case None =>
      assert r == inv + [p];
      UnidadesConcatenacion(inv, [p]);
    case Some(i) =>
      if fusionar {
        var q := inv[i].(cantidad := inv[i].cantidad + p.cantidad);
        assert p.cantidad > 0;
        FusionSuma(inv, p, i);
        UnidadesReemplazo(inv, i, q);
      } else {
        assert r == inv;
      }
  }
}
