/** `Inventario`: an insertion-ordered list of products that holds at most
    one product per normalised name (sistema_inventario.py, class
    `Inventario`).  The source mutates `self.productos`; here each
    operation returns the new list. */
module Inventarios {
  import opened Results
  import opened Ascii
  import opened Seqs
  import opened Productos

  type Inventario = seq<Producto>

  /** No two products share a stored name. */
  predicate NombresUnicos(inv: Inventario) {
    forall i, j :: 0 <= i < j < |inv| ==> inv[i].nombre != inv[j].nombre
  }

  /** Every product passed the constructor's checks. */
  predicate TodosValidos(inv: Inventario) {
    forall i :: 0 <= i < |inv| ==> Valido(inv[i])
  }

  /** The invariant the operations keep: valid products, unique names. */
  predicate BienFormado(inv: Inventario) {
    TodosValidos(inv) && NombresUnicos(inv)
  }

  /** Some product is stored under `clave`. */
  predicate Contiene(inv: Inventario, clave: string) {
    exists i :: 0 <= i < |inv| && inv[i].nombre == clave
  }

  /** `i` is the first position whose product is stored under `clave`. */
  predicate EsPrimero(inv: Inventario, clave: string, i: int) {
    && 0 <= i < |inv|
    && inv[i].nombre == clave
    && forall j :: 0 <= j < i ==> inv[j].nombre != clave
  }

  /** The `for producto in self.productos` scan of `buscar_producto`. */
  function IndiceDe(inv: Inventario, clave: string): (r: Option<nat>)
    ensures r.Some? ==> EsPrimero(inv, clave, r.value)
    ensures r.None? <==> !Contiene(inv, clave)
    decreases |inv|
  {
    if inv == [] then None
    else if inv[0].nombre == clave then Some(0)
    else
      match IndiceDe(inv[1..], clave)
      case None =>
        assert forall j :: 1 <= j < |inv| ==> inv[j] == inv[1..][j - 1];
        None
      case Some(k) =>
        assert forall j :: 1 <= j <= k ==> inv[j] == inv[1..][j - 1];
        Some(k + 1)
  }

  /** With unique names a match is the first match. */
  lemma UnicoEsPrimero(inv: Inventario, i: int)
    requires NombresUnicos(inv) && 0 <= i < |inv|
    ensures EsPrimero(inv, inv[i].nombre, i)
  {
  }

  // ---------------------------------------------------------------------------
  // buscar_producto (sistema_inventario.py:121-131)

  /** A blank query is an error; otherwise the first product stored under the
      normalised query, if any. */
  function BuscarProducto(inv: Inventario, nombre: string): (r: Result<Option<Producto>>)
    ensures r.Err? <==> EsBlanco(nombre)
    ensures r.Err? ==> r.error == InvalidSearchName
    ensures r == Ok(None) <==> !EsBlanco(nombre) && !Contiene(inv, NormalizarNombre(nombre))
    ensures r.Ok? && r.value.Some? ==>
              exists i :: EsPrimero(inv, NormalizarNombre(nombre), i) && r.value.value == inv[i]
  {
    if EsBlanco(nombre) then Err(InvalidSearchName)
    else
      match IndiceDe(inv, NormalizarNombre(nombre))
      case None => Ok(None)
      case Some(i) => Ok(Some(inv[i]))
  }

  /** Every stored product is found by its own name. */
  lemma BuscarPorSuNombre(inv: Inventario, i: int)
    requires BienFormado(inv) && 0 <= i < |inv|
    ensures BuscarProducto(inv, inv[i].nombre) == Ok(Some(inv[i]))
  {
    NombreValidoNoBlanco(inv[i]);
    UnicoEsPrimero(inv, i);
  }

  /** The lookup ignores case: upper- or lower-casing the query changes
      nothing. */
  lemma BuscarIgnoraMayusculas(inv: Inventario, nombre: string)
    ensures BuscarProducto(inv, Lower(nombre)) == BuscarProducto(inv, nombre)
    ensures BuscarProducto(inv, Upper(nombre)) == BuscarProducto(inv, nombre)
  {
    NormalizarIgnoraMayusculas(nombre);
    StripLower(nombre);
    StripUpper(nombre);
  }

  /** The lookup ignores whitespace around the query. */
  lemma BuscarIgnoraEspacios(inv: Inventario, a: string, nombre: string, b: string)
    requires AllSpace(a) && AllSpace(b)
    ensures BuscarProducto(inv, a + nombre + b) == BuscarProducto(inv, nombre)
  {
    StripPad(a, nombre, b);
  }

  // ---------------------------------------------------------------------------
  // agregar_producto (sistema_inventario.py:103-119)

  /** Adds `p`, or, when a product with the same normalised name is stored,
      merges `p`'s quantity into it (`fusionar`, the user's answer to the
      prompt) or leaves the list as it is.  The merge goes through
      `AgregarStock`, so a zero quantity makes it fail. */
  function AgregarProducto(inv: Inventario, p: Producto, fusionar: bool): (r: Result<Inventario>)
    ensures EsBlanco(p.nombre) ==> r == Err(InvalidSearchName)
    ensures !EsBlanco(p.nombre) && !Contiene(inv, NormalizarNombre(p.nombre)) ==> r == Ok(inv + [p])
    ensures !EsBlanco(p.nombre) && Contiene(inv, NormalizarNombre(p.nombre)) && !fusionar ==> r == Ok(inv)
    ensures forall i :: !EsBlanco(p.nombre) && fusionar && EsPrimero(inv, NormalizarNombre(p.nombre), i) ==>
              && (p.cantidad < 0 ==> r == Err(NegativeQuantity))
              && (p.cantidad == 0 ==> r == Err(NonPositiveAmount))
              && (p.cantidad > 0 ==> r == Ok(inv[i := inv[i].(cantidad := inv[i].cantidad + p.cantidad)]))
  {
    if EsBlanco(p.nombre) then Err(InvalidSearchName)
    else
      var clave := NormalizarNombre(p.nombre);
      match IndiceDe(inv, clave)
      case None => Ok(inv + [p])
      case Some(i) =>
        assert forall j :: EsPrimero(inv, clave, j) ==> j == i;
        if !fusionar then Ok(inv)
        else
          match AgregarStock(inv[i], p.cantidad)
          case Err(e) => Err(e)
          case Ok(q) =>
            assert q == inv[i].(cantidad := inv[i].cantidad + p.cantidad);
            Ok(inv[i := q])
  }

  /** Appending a valid product under a new name keeps the list well
      formed. */
  lemma AnadirConserva(inv: Inventario, p: Producto)
    requires BienFormado(inv) && Valido(p) && !Contiene(inv, p.nombre)
    ensures BienFormado(inv + [p])
  {
    var r := inv + [p];
    assert forall i :: 0 <= i < |inv| ==> r[i] == inv[i];
    assert r[|inv|] == p;
    assert TodosValidos(r);
    UnicosAlAnadir(inv, p);
  }

  lemma UnicosAlAnadir(inv: Inventario, p: Producto)
    requires NombresUnicos(inv) && !Contiene(inv, p.nombre)
    ensures NombresUnicos(inv + [p])
  {
    var r := inv + [p];
    forall i, j | 0 <= i < j < |r| ensures r[i].nombre != r[j].nombre {
      if j == |inv| {
        assert r[i] == inv[i] && r[j] == p;
      } else {
        assert r[i] == inv[i] && r[j] == inv[j];
      }
    }
  }

  /** Replacing a product by a valid one under the same name keeps the list
      well formed. */
  lemma ReemplazarConserva(inv: Inventario, i: int, q: Producto)
    requires BienFormado(inv) && 0 <= i < |inv| && Valido(q) && q.nombre == inv[i].nombre
    ensures BienFormado(inv[i := q])
  {
    var r := inv[i := q];
    forall j | 0 <= j < |r| ensures Valido(r[j]) {
      if j != i {
        assert r[j] == inv[j];
      }
    }
    UnicosAlReemplazar(inv, i, q);
  }

  lemma UnicosAlReemplazar(inv: Inventario, i: int, q: Producto)
    requires NombresUnicos(inv) && 0 <= i < |inv| && q.nombre == inv[i].nombre
    ensures NombresUnicos(inv[i := q])
  {
    var r := inv[i := q];
    assert forall j :: 0 <= j < |r| ==> r[j].nombre == inv[j].nombre;
  }

  /** Removing the product at `i` keeps the list well formed, and with unique
      names nothing is stored under its name any more. */
  lemma QuitarConserva(inv: Inventario, i: int)
    requires BienFormado(inv) && 0 <= i < |inv|
    ensures BienFormado(inv[..i] + inv[i + 1..])
    ensures !Contiene(inv[..i] + inv[i + 1..], inv[i].nombre)
  {
    ValidosAlQuitar(inv, i);
    UnicosAlQuitar(inv, i);
  }

  lemma ValidosAlQuitar(inv: Inventario, i: int)
    requires TodosValidos(inv) && 0 <= i < |inv|
    ensures TodosValidos(inv[..i] + inv[i + 1..])
  {
    assert All(inv, Valido);
    AllAfterRemove(inv, i, Valido);
    assert All(inv[..i] + inv[i + 1..], Valido);
  }

  lemma UnicosAlQuitar(inv: Inventario, i: int)
    requires NombresUnicos(inv) && 0 <= i < |inv|
    ensures NombresUnicos(inv[..i] + inv[i + 1..])
    ensures !Contiene(inv[..i] + inv[i + 1..], inv[i].nombre)
  {
    var r := inv[..i] + inv[i + 1..];
    assert forall j :: 0 <= j < i ==> r[j] == inv[j];
    assert forall j :: i <= j < |r| ==> r[j] == inv[j + 1];
  }

  /** Adding a valid product keeps the list well formed. */
  lemma AgregarConservaBienFormado(inv: Inventario, p: Producto, fusionar: bool)
    requires BienFormado(inv) && Valido(p)
    ensures AgregarProducto(inv, p, fusionar).Ok? ==> BienFormado(AgregarProducto(inv, p, fusionar).value)
  {
    NombreValidoNoBlanco(p);
    var clave := NormalizarNombre(p.nombre);
    assert clave == p.nombre;
    match IndiceDe(inv, clave)
    case None =>
      AnadirConserva(inv, p);
    case Some(i) =>
      if fusionar && AgregarStock(inv[i], p.cantidad).Ok? {
        var q := AgregarStock(inv[i], p.cantidad).value;
        assert Valido(inv[i]);
        ActualizacionesConservanValido(inv[i], 0.0, p.cantidad);
        ReemplazarConserva(inv, i, q);
      }
  }

  /** Three outcomes, told apart by the length: a new name appends one
      product, a known name keeps the length. */
  lemma AgregarLongitud(inv: Inventario, p: Producto, fusionar: bool)
    requires AgregarProducto(inv, p, fusionar).Ok?
    ensures var r := AgregarProducto(inv, p, fusionar).value;
            |r| == if Contiene(inv, NormalizarNombre(p.nombre)) then |inv| else |inv| + 1
  {
  }

  // ---------------------------------------------------------------------------
  // eliminar_producto (sistema_inventario.py:146-154)

  /** Removes the product `buscar_producto` finds and reports whether there
      was one; `list.remove` drops that very object, the first match. */
  function EliminarProducto(inv: Inventario, nombre: string): (r: Result<(Inventario, bool)>)
    ensures r.Err? <==> EsBlanco(nombre)
    ensures r.Err? ==> r.error == InvalidSearchName
    ensures r.Ok? ==> (r.value.1 <==> Contiene(inv, NormalizarNombre(nombre)))
    ensures r.Ok? && !r.value.1 ==> r.value.0 == inv
    ensures forall i :: !EsBlanco(nombre) && EsPrimero(inv, NormalizarNombre(nombre), i) ==>
              r == Ok((inv[..i] + inv[i + 1..], true))
  {
    match BuscarProducto(inv, nombre)
    case Err(e) => Err(e)
    case Ok(None) => Ok((inv, false))
    case Ok(Some(_)) =>
      var i := IndiceDe(inv, NormalizarNombre(nombre)).value;
      Ok((inv[..i] + inv[i + 1..], true))
  }

  /** Removing keeps the list well formed and, names being unique, leaves no
      product under the removed name. */
  lemma EliminarConservaBienFormado(inv: Inventario, nombre: string)
    requires BienFormado(inv)
    requires EliminarProducto(inv, nombre).Ok?
    ensures BienFormado(EliminarProducto(inv, nombre).value.0)
    ensures !Contiene(EliminarProducto(inv, nombre).value.0, NormalizarNombre(nombre))
    ensures |EliminarProducto(inv, nombre).value.0| ==
              if EliminarProducto(inv, nombre).value.1 then |inv| - 1 else |inv|
  {
    var clave := NormalizarNombre(nombre);
    match IndiceDe(inv, clave)
    case None =>
      EliminarSinCoincidencia(inv, nombre);
    case Some(i) =>
      EliminarPrimero(inv, nombre, i);
      QuitarConserva(inv, i);
  }

  /** Without a product under the name, removal answers `false` and keeps the
      list. */
  lemma EliminarSinCoincidencia(inv: Inventario, nombre: string)
    requires !EsBlanco(nombre) && !Contiene(inv, NormalizarNombre(nombre))
    ensures EliminarProducto(inv, nombre) == Ok((inv, false))
  {
  }

  /** With a first match at `i`, removal answers `true` and drops index `i`. */
  lemma EliminarPrimero(inv: Inventario, nombre: string, i: int)
    requires !EsBlanco(nombre) && EsPrimero(inv, NormalizarNombre(nombre), i)
    ensures EliminarProducto(inv, nombre) == Ok((inv[..i] + inv[i + 1..], true))
  {
  }

  /** Removal ignores whitespace around the name, as the lookup it goes
      through does. */
  lemma EliminarIgnoraEspacios(inv: Inventario, a: string, nombre: string, b: string)
    requires AllSpace(a) && AllSpace(b)
    ensures EliminarProducto(inv, a + nombre + b) == EliminarProducto(inv, nombre)
  {
    StripPad(a, nombre, b);
  }

  /** Removing what was just appended under a new name undoes the append. */
  lemma EliminarDeshaceAgregar(inv: Inventario, p: Producto, fusionar: bool)
    requires Valido(p) && !Contiene(inv, p.nombre)
    ensures AgregarProducto(inv, p, fusionar) == Ok(inv + [p])
    ensures EliminarProducto(inv + [p], p.nombre) == Ok((inv, true))
  {
    NombreValidoNoBlanco(p);
    var r := inv + [p];
    assert forall j :: 0 <= j < |inv| ==> r[j] == inv[j];
    assert EsPrimero(r, p.nombre, |inv|);
    assert r[..|inv|] + r[|inv| + 1..] == inv;
  }

  // ---------------------------------------------------------------------------
  // buscar_productos_por_patron (sistema_inventario.py:133-144)

  /** A product matches a (stripped, lower-cased) pattern when the pattern
      occurs in its lower-cased name. */
  predicate Coincide(p: Producto, patron: string): (b: bool)
    ensures b <==> exists i :: OccursAt(Lower(p.nombre), patron, i)
  {
    Contains(Lower(p.nombre), patron)
  }

  /** Case-insensitive substring search; a blank pattern finds nothing. */
  function BuscarPorPatron(inv: Inventario, patron: string): (r: seq<Producto>)
    ensures EsBlanco(patron) ==> r == []
    ensures !EsBlanco(patron) ==>
              forall p :: p in r <==> p in inv && Coincide(p, Lower(Strip(patron)))
    ensures !EsBlanco(patron) ==>
              forall p :: multiset(r)[p] == if Coincide(p, Lower(Strip(patron))) then multiset(inv)[p] else 0
    ensures IsSubsequence(r, inv)
  {
    if EsBlanco(patron) then []
    else
      var clave := Lower(Strip(patron));
      var r := Filter(inv, (q: Producto) => Coincide(q, clave));
      assert forall p :: p in r <==> multiset(r)[p] > 0;
      r
  }

  /** Every stored product is found by a search for its own name. */
  lemma PatronEncuentraSuNombre(inv: Inventario, i: int)
    requires 0 <= i < |inv| && Valido(inv[i])
    ensures inv[i] in BuscarPorPatron(inv, inv[i].nombre)
  {
    var p := inv[i];
    NombreValidoNoBlanco(p);
    ContainsSelf(Lower(p.nombre));
    assert Coincide(p, Lower(Strip(p.nombre)));
    PatronIncluye(inv, p.nombre, i);
  }

  lemma PatronIncluye(inv: Inventario, patron: string, i: int)
    requires 0 <= i < |inv| && !EsBlanco(patron) && Coincide(inv[i], Lower(Strip(patron)))
    ensures inv[i] in BuscarPorPatron(inv, patron)
  {
    assert inv[i] in inv;
  }

  /** The search ignores the case of the pattern. */
  lemma PatronIgnoraMayusculas(inv: Inventario, patron: string)
    ensures BuscarPorPatron(inv, Upper(patron)) == BuscarPorPatron(inv, patron)
    ensures BuscarPorPatron(inv, Lower(patron)) == BuscarPorPatron(inv, patron)
  {
    ClaveIgnoraMayusculas(patron);
    MismaClave(inv, Upper(patron), patron);
    MismaClave(inv, Lower(patron), patron);
  }

  /** The search ignores whitespace around the pattern. */
  lemma PatronIgnoraEspacios(inv: Inventario, a: string, patron: string, b: string)
    requires AllSpace(a) && AllSpace(b)
    ensures BuscarPorPatron(inv, a + patron + b) == BuscarPorPatron(inv, patron)
  {
    StripPad(a, patron, b);
    MismaClave(inv, a + patron + b, patron);
  }

  /** Two patterns with the same search key give the same search. */
  lemma MismaClave(inv: Inventario, a: string, b: string)
    requires EsBlanco(a) == EsBlanco(b) && Lower(Strip(a)) == Lower(Strip(b))
    ensures BuscarPorPatron(inv, a) == BuscarPorPatron(inv, b)
  {
  }

  /** Case changes of a pattern leave its blankness and its search key as
      they are. */
  lemma ClaveIgnoraMayusculas(patron: string)
    ensures EsBlanco(Upper(patron)) == EsBlanco(patron) && EsBlanco(Lower(patron)) == EsBlanco(patron)
    ensures Lower(Strip(Upper(patron))) == Lower(Strip(patron))
    ensures Lower(Strip(Lower(patron))) == Lower(Strip(patron))
  {
    StripLower(patron);
    StripUpper(patron);
    var s := Strip(patron);
    LowerIdempotent(s);
    LowerOfUpper(s);
  }

  // ---------------------------------------------------------------------------
  // obtener_productos_bajo_stock (sistema_inventario.py:176-178)

  /** The products with at most `limite` units, in inventory order, each as
      often as it occurs. */
  function ProductosBajoStock(inv: Inventario, limite: int): (r: seq<Producto>)
    ensures forall p :: p in r <==> p in inv && p.cantidad <= limite
    ensures forall p :: multiset(r)[p] == if p.cantidad <= limite then multiset(inv)[p] else 0
    ensures IsSubsequence(r, inv)
  {
    var r := Filter(inv, (q: Producto) => q.cantidad <= limite);
    assert forall p :: p in r <==> multiset(r)[p] > 0;
    r
  }

  // ---------------------------------------------------------------------------
  // calcular_valor_inventario (sistema_inventario.py:156-158)

  /** The inventory's value: the sum of its products' values. */
  function ValorInventario(inv: Inventario): (v: real)
    ensures (forall k :: 0 <= k < |inv| ==> ValorTotal(inv[k]) >= 0.0) ==> v >= 0.0
    decreases |inv|
  {
    if inv == [] then 0.0
    else
      assert forall i :: 1 <= i < |inv| ==> inv[1..][i - 1] == inv[i];
      ValorTotal(inv[0]) + ValorInventario(inv[1..])
  }

  /** A well-formed inventory is never worth less than nothing. */
  lemma {:induction false} ValorNoNegativo(inv: Inventario)
    requires forall i :: 0 <= i < |inv| ==> Valido(inv[i])
    ensures ValorInventario(inv) >= 0.0
    decreases |inv|
  {
    if inv != [] {
      assert Valido(inv[0]);
      ValorNoNegativo(inv[1..]);
    }
  }

  /** The total of a concatenation is the sum of the totals. */
  lemma {:induction false} ValorConcatenacion(a: Inventario, b: Inventario)
    ensures ValorInventario(a + b) == ValorInventario(a) + ValorInventario(b)
    decreases |a|
  {
    if a != [] {
      assert (a + b)[0] == a[0];
      assert (a + b)[1..] == a[1..] + b;
      ValorConcatenacion(a[1..], b);
    } else {
      assert a + b == b;
    }
  }

  /** Replacing one product changes the total by the difference of the two
      products' values. */
  lemma {:induction false} ValorReemplazo(inv: Inventario, i: int, q: Producto)
    requires 0 <= i < |inv|
    ensures ValorInventario(inv[i := q]) == ValorInventario(inv) - ValorTotal(inv[i]) + ValorTotal(q)
    decreases |inv|
  {
    if i > 0 {
      assert inv[i := q][1..] == inv[1..][i - 1 := q];
      ValorReemplazo(inv[1..], i - 1, q);
    } else {
      assert inv[i := q][1..] == inv[1..];
    }
  }

  /** Appending a product under a new name adds its value to the total. */
  lemma AgregarNuevoValor(inv: Inventario, p: Producto, fusionar: bool)
    requires !EsBlanco(p.nombre) && !Contiene(inv, NormalizarNombre(p.nombre))
    ensures AgregarProducto(inv, p, fusionar).Ok?
    ensures ValorInventario(AgregarProducto(inv, p, fusionar).value) == ValorInventario(inv) + ValorTotal(p)
  {
    ValorConcatenacion(inv, [p]);
  }

  /** A merge with a positive quantity succeeds and swaps the stored
      product's value for that of the merged product. */
  lemma AgregarFusionValor(inv: Inventario, p: Producto, i: int)
    requires !EsBlanco(p.nombre) && EsPrimero(inv, NormalizarNombre(p.nombre), i)
    requires p.cantidad > 0
    ensures AgregarProducto(inv, p, true).Ok?
    ensures var r := AgregarProducto(inv, p, true).value;
            ValorInventario(r) == ValorInventario(inv) - ValorTotal(inv[i]) + ValorTotal(r[i])
  {
    var q := inv[i].(cantidad := inv[i].cantidad + p.cantidad);
    FusionSuma(inv, p, i);
    ValorReemplazo(inv, i, q);
  }

  /** A merge with a positive quantity adds it to the first product stored
      under the key. */
  lemma FusionSuma(inv: Inventario, p: Producto, i: int)
    requires !EsBlanco(p.nombre) && EsPrimero(inv, NormalizarNombre(p.nombre), i)
    requires p.cantidad > 0
    ensures AgregarProducto(inv, p, true) == Ok(inv[i := inv[i].(cantidad := inv[i].cantidad + p.cantidad)])
  {
  }

  /** Merging `n` units into the product at `i` adds their value at its
      price. */
  lemma ValorFusion(inv: Inventario, i: int, n: int)
    requires 0 <= i < |inv|
    ensures ValorInventario(inv[i := inv[i].(cantidad := inv[i].cantidad + n)])
            == ValorInventario(inv) + inv[i].precio * n as real
  {
    var q := inv[i].(cantidad := inv[i].cantidad + n);
    ValorMasUnidades(inv[i], n);
    ValorCambio(inv, i, q, inv[i].precio * n as real);
  }

  /** A replacement worth `d` more than the product it replaces raises the
      total by `d`. */
  lemma ValorCambio(inv: Inventario, i: int, q: Producto, d: real)
    requires 0 <= i < |inv| && ValorTotal(q) == ValorTotal(inv[i]) + d
    ensures ValorInventario(inv[i := q]) == ValorInventario(inv) + d
  {
    ValorReemplazo(inv, i, q);
  }

  /** `n` more units of one product are worth `n` times its price more. */
  lemma ValorMasUnidades(p: Producto, n: int)
    ensures ValorTotal(p.(cantidad := p.cantidad + n)) == ValorTotal(p) + p.precio * n as real
  {
    var x, c := p.precio, p.cantidad as real;
    assert (p.cantidad + n) as real == c + n as real;
    assert x * (c + n as real) == x * c + x * n as real;
  }

  /** Removing a product takes exactly its value off the total. */
  lemma EliminarValor(inv: Inventario, nombre: string)
    requires EliminarProducto(inv, nombre).Ok? && EliminarProducto(inv, nombre).value.1
    ensures exists i :: EsPrimero(inv, NormalizarNombre(nombre), i) &&
              ValorInventario(EliminarProducto(inv, nombre).value.0) == ValorInventario(inv) - ValorTotal(inv[i])
  {
    var i := IndiceDe(inv, NormalizarNombre(nombre)).value;
    assert inv == inv[..i] + [inv[i]] + inv[i + 1..];
    ValorConcatenacion(inv[..i] + [inv[i]], inv[i + 1..]);
    ValorConcatenacion(inv[..i], [inv[i]]);
    ValorConcatenacion(inv[..i], inv[i + 1..]);
  }
}
