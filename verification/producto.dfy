/** `Producto`: a product with a normalised name, a unit price and a stock
    quantity (sistema_inventario.py, class `Producto`).  The source mutates
    a product in place; here every update returns the new product or the
    error it raised, and a failed update returns no product at all, so the
    caller keeps the old one unchanged. */
module Productos {
  import opened Results
  import opened Ascii

  datatype Producto = Producto(nombre: string, precio: real, cantidad: int)

  /** Shortest accepted name, counted after stripping. */
  const MinLongitudNombre := 2

  /** Default threshold of the low-stock report. */
  const LimiteStockBajo := 5

  /** `nombre.strip().title()`: the form in which names are stored and
      compared. */
  function NormalizarNombre(nombre: string): (r: string)
    ensures |r| == |Strip(nombre)|
  {
    Title(Strip(nombre))
  }

  /** A blank name: empty or whitespace only. */
  predicate EsBlanco(s: string): (b: bool)
    ensures b <==> AllSpace(s)
  {
    Strip(s) == []
  }

  /** What every product built by `Crear` and kept by the updates satisfies. */
  predicate Valido(p: Producto) {
    && |p.nombre| >= MinLongitudNombre
    && NormalizarNombre(p.nombre) == p.nombre
    && p.precio >= 0.0
    && p.cantidad >= 0
  }

  /** Normalising a normalised name changes nothing, so a stored name is its
      own lookup key. */
  lemma NormalizarIdempotente(s: string)
    ensures NormalizarNombre(NormalizarNombre(s)) == NormalizarNombre(s)
  {
    var t := Strip(s);
    var u := Title(t);
    if |u| > 0 {
      TitleKeepsClasses(t, 0);
      TitleKeepsClasses(t, |t| - 1);
    }
    StripOfTrimmed(u);
    TitleIdempotent(t);
  }

  /** Normalisation ignores the case of its input. */
  lemma NormalizarIgnoraMayusculas(s: string)
    ensures NormalizarNombre(Lower(s)) == NormalizarNombre(s)
    ensures NormalizarNombre(Upper(s)) == NormalizarNombre(s)
  {
    StripLower(s);
    StripUpper(s);
    TitleIgnoresCase(Strip(s));
  }

  /** Normalisation only trims and changes case: ignoring case, the result
      is the trimmed input. */
  lemma NormalizarSoloRecortaYCapitaliza(nombre: string)
    ensures Lower(NormalizarNombre(nombre)) == Lower(Strip(nombre))
  {
    LowerOfTitle(Strip(nombre));
  }

  /** A valid product's name is not blank and is already normalised. */
  lemma NombreValidoNoBlanco(p: Producto)
    requires Valido(p)
    ensures !EsBlanco(p.nombre)
    ensures Strip(p.nombre) == p.nombre
  {
    var t := Strip(p.nombre);
    assert |Title(t)| == |t|;
    if |t| > 0 {
      TitleKeepsClasses(t, 0);
      TitleKeepsClasses(t, |t| - 1);
    }
    StripOfTrimmed(p.nombre);
  }

  // ---------------------------------------------------------------------------
  // validators (sistema_inventario.py:20-46)

  /** `_validar_nombre`: empty or blank first, then too short. */
  function ValidarNombre(nombre: string): (r: Result<()>)
    ensures r.Ok? <==> |Strip(nombre)| >= MinLongitudNombre
    ensures EsBlanco(nombre) ==> r == Err(EmptyName)
    ensures 0 < |Strip(nombre)| < MinLongitudNombre ==> r == Err(NameTooShort)
  {
    if EsBlanco(nombre) then Err(EmptyName)
    else if |Strip(nombre)| < MinLongitudNombre then Err(NameTooShort)
    else Ok(())
  }

  /** `_validar_precio`. */
  function ValidarPrecio(precio: real): (r: Result<()>)
    ensures r.Ok? <==> precio >= 0.0
    ensures r.Err? ==> r.error == NegativePrice
  {
    if precio < 0.0 then Err(NegativePrice) else Ok(())
  }

  /** `_validar_cantidad`. */
  function ValidarCantidad(cantidad: int): (r: Result<()>)
    ensures r.Ok? <==> cantidad >= 0
    ensures r.Err? ==> r.error == NegativeQuantity
  {
    if cantidad < 0 then Err(NegativeQuantity) else Ok(())
  }

  // ---------------------------------------------------------------------------
  // construction and updates

  /** `Producto(nombre, precio, cantidad)`: validates name, price and
      quantity in that order and stores the normalised name. */
  function Crear(nombre: string, precio: real, cantidad: int): (r: Result<Producto>)
    ensures r.Ok? <==> |Strip(nombre)| >= MinLongitudNombre && precio >= 0.0 && cantidad >= 0
    ensures r.Ok? ==> Valido(r.value)
    ensures r.Ok? ==> (r.value.nombre == Title(Strip(nombre))
                       && r.value.precio == precio && r.value.cantidad == cantidad)
    ensures EsBlanco(nombre) ==> r == Err(EmptyName)
    ensures 0 < |Strip(nombre)| < MinLongitudNombre ==> r == Err(NameTooShort)
    ensures |Strip(nombre)| >= MinLongitudNombre && precio < 0.0 ==> r == Err(NegativePrice)
    ensures |Strip(nombre)| >= MinLongitudNombre && precio >= 0.0 && cantidad < 0 ==> r == Err(NegativeQuantity)
  {
    match ValidarNombre(nombre)
    case Err(e) => Err(e)
    case Ok(_) =>
      match ValidarPrecio(precio)
      case Err(e) => Err(e)
      case Ok(_) =>
        match ValidarCantidad(cantidad)
        case Err(e) => Err(e)
        case Ok(_) =>
          NormalizarIdempotente(nombre);
          Ok(Producto(NormalizarNombre(nombre), precio, cantidad))
  }

  /** Re-creating a valid product from its own fields gives it back: the
      constructor's normalisation is a no-op on stored names. */
  lemma CrearReconstruye(p: Producto)
    requires Valido(p)
    ensures Crear(p.nombre, p.precio, p.cantidad) == Ok(p)
  {
    NombreValidoNoBlanco(p);
  }

  /** `actualizar_precio`: validate, then replace the price only. */
  function ActualizarPrecio(p: Producto, nuevoPrecio: real): (r: Result<Producto>)
    ensures nuevoPrecio < 0.0 ==> r == Err(NegativePrice)
    ensures nuevoPrecio >= 0.0 ==> r.Ok? && r.value.precio == nuevoPrecio
    ensures r.Ok? ==> r.value.nombre == p.nombre && r.value.cantidad == p.cantidad
  {
    match ValidarPrecio(nuevoPrecio)
    case Err(e) => Err(e)
    case Ok(_) => Ok(p.(precio := nuevoPrecio))
  }

  /** `actualizar_cantidad`: validate, then replace the quantity only. */
  function ActualizarCantidad(p: Producto, nuevaCantidad: int): (r: Result<Producto>)
    ensures nuevaCantidad < 0 ==> r == Err(NegativeQuantity)
    ensures nuevaCantidad >= 0 ==> r.Ok? && r.value.cantidad == nuevaCantidad
    ensures r.Ok? ==> r.value.nombre == p.nombre && r.value.precio == p.precio
  {
    match ValidarCantidad(nuevaCantidad)
    case Err(e) => Err(e)
    case Ok(_) => Ok(p.(cantidad := nuevaCantidad))
  }

  /** `calcular_valor_total`. */
  function ValorTotal(p: Producto): (v: real)
    ensures p.precio >= 0.0 && p.cantidad >= 0 ==> v >= 0.0
    ensures p.cantidad == 0 || p.precio == 0.0 ==> v == 0.0
  {
    p.precio * p.cantidad as real
  }

  /** `agregar_stock`: the amount must pass the quantity validator and be
      positive; then it is added to the stock. */
  function AgregarStock(p: Producto, n: int): (r: Result<Producto>)
    ensures n < 0 ==> r == Err(NegativeQuantity)
    ensures n == 0 ==> r == Err(NonPositiveAmount)
    ensures n > 0 ==> r.Ok? && r.value.cantidad == p.cantidad + n
    ensures r.Ok? ==> r.value.nombre == p.nombre && r.value.precio == p.precio
  {
    match ValidarCantidad(n)
    case Err(e) => Err(e)
    case Ok(_) =>
      if n <= 0 then Err(NonPositiveAmount)
      else Ok(p.(cantidad := p.cantidad + n))
  }

  /** `reducir_stock`: the amount must pass the quantity validator, be
      positive and not exceed the stock; the stock never goes negative. */
  function ReducirStock(p: Producto, n: int): (r: Result<Producto>)
    ensures n < 0 ==> r == Err(NegativeQuantity)
    ensures n == 0 ==> r == Err(NonPositiveAmount)
    ensures n > 0 && n > p.cantidad ==> r == Err(InsufficientStock(p.cantidad, n))
    ensures 0 < n <= p.cantidad ==> r.Ok? && r.value.cantidad == p.cantidad - n
    ensures r.Ok? ==> r.value.cantidad >= 0
    ensures r.Ok? ==> r.value.nombre == p.nombre && r.value.precio == p.precio
  {
    match ValidarCantidad(n)
    case Err(e) => Err(e)
    case Ok(_) =>
      if n <= 0 then Err(NonPositiveAmount)
      else if n > p.cantidad then Err(InsufficientStock(p.cantidad, n))
      else Ok(p.(cantidad := p.cantidad - n))
  }

  /** A successful update of a valid product gives a valid product: each
      update validates its argument and leaves the name as it was. */
  lemma ActualizacionesConservanValido(p: Producto, precio: real, n: int)
    requires Valido(p)
    ensures ActualizarPrecio(p, precio).Ok? ==> Valido(ActualizarPrecio(p, precio).value)
    ensures ActualizarCantidad(p, n).Ok? ==> Valido(ActualizarCantidad(p, n).value)
    ensures AgregarStock(p, n).Ok? ==> Valido(AgregarStock(p, n).value)
    ensures ReducirStock(p, n).Ok? ==> Valido(ReducirStock(p, n).value)
  {
  }

  /** Adding `n` units and then taking `n` away restores the product. */
  lemma AgregarLuegoReducir(p: Producto, n: int)
    requires p.cantidad >= 0 && AgregarStock(p, n).Ok?
    ensures ReducirStock(AgregarStock(p, n).value, n) == Ok(p)
  {
  }

  /** Taking `n` units away and then adding `n` back restores the product. */
  lemma ReducirLuegoAgregar(p: Producto, n: int)
    requires ReducirStock(p, n).Ok?
    ensures AgregarStock(ReducirStock(p, n).value, n) == Ok(p)
  {
  }

  /** The low-stock label of `__str__`: at most `LimiteStockBajo` units. */
  predicate StockBajo(p: Producto) {
    p.cantidad <= LimiteStockBajo
  }
}
