# Inventory system: products and the product list

A Dafny model of the two classes at the heart of `sistema_inventario.py`:

- `Producto`: a named product with a unit price and a stock quantity.
  Its constructor validates all three and stores the name stripped and
  title-cased. Its updates validate before changing anything.
- `Inventario`: an insertion-ordered list of products. It offers lookup by
  normalised name, case-insensitive substring search, add (with an optional
  merge into an existing product of the same name), remove, total value,
  the low-stock list and the statistics of the inventory report.

The model is functional:

- A product is an immutable datatype and an inventory is a `seq<Producto>`.
- Every operation that can raise in the source returns a `Result`, whose
  `Error` constructor names the source's failure.
- An update that fails returns no new value, so the caller keeps the old
  one. This models the source's promise that no field changes unless every
  check passes.

Layout:

| file | module | contents |
|---|---|---|
| `results.dfy` | `Results` | `Error`, `Option`, `Result` |
| `ascii.dfy` | `Ascii` | `str.strip()`, `str.title()`, `str.lower()`/`upper()` and `in` on strings, over ASCII |
| `seqs.dfy` | `Seqs` | list comprehension filter, Python's first-wins `max`/`min` with a key |
| `producto.dfy` | `Productos` | `Producto`: validators, constructor, updates, value |
| `inventario.dfy` | `Inventarios` | `Inventario`: lookup, add/merge, remove, pattern search, low stock, total value |
| `reporte.dfy` | `Reportes` | the figures of `generar_reporte_inventario` |
| `escenarios.dfy` | `Escenarios` | worked examples of the model |

Notes on the code the model follows:

- `ProductoError` (lines 1-3) is the only exception a product raises,
  including the insufficient-stock case at line 79. The model tells the
  failures apart by the `Error` constructor, for example
  `InsufficientStock(available, requested)`.
- `agregar_producto` asks the user whether to merge a duplicate name
  (line 110). The answer is the boolean parameter `fusionar`.
- A merge goes through `agregar_stock`, so merging a product of quantity 0
  fails with `NonPositiveAmount` and leaves the list unchanged.

## Model

| member | source | states |
|---|---|---|
| Ascii.Strip | sistema_inventario.py:16 | the stripped name is an infix of the input with only whitespace outside it, neither of its ends is whitespace, and it is empty exactly when the input is all whitespace |
| Ascii.StripOfTrimmed | sistema_inventario.py:16 | a string without surrounding whitespace is its own strip |
| Ascii.StripUnico | sistema_inventario.py:16 | `strip` keeps exactly the window that neither starts nor ends with whitespace and has only whitespace outside it |
| Ascii.StripPad | sistema_inventario.py:125 | whitespace added on either side of a string does not change its strip |
| Ascii.Title | sistema_inventario.py:16 | each character of the title-cased name is upper-cased when it starts a run of letters, lower-cased when it follows a letter, and kept otherwise |
| Ascii.Lower | sistema_inventario.py:137 | the lower-cased string has the input's length and lower-cases each letter in place, keeping every other character |
| Ascii.ToLower | sistema_inventario.py:137 | an upper-case letter becomes the lower-case letter 32 code points above it; lower-case letters and every other character are kept |
| Ascii.ToUpper | sistema_inventario.py:16 | a lower-case letter becomes the upper-case letter 32 code points below it; upper-case letters and every other character are kept |
| Ascii.TitleIdempotent | sistema_inventario.py:16 | title-casing a title-cased string leaves it unchanged |
| Ascii.TitleIgnoresCase | sistema_inventario.py:125 | `title` gives the same result on the lower- or upper-cased input, which is why look-ups ignore case |
| Ascii.StripLower | sistema_inventario.py:137 | stripping commutes with lower-casing |
| Ascii.LowerOfTitle | sistema_inventario.py:141 | lower-casing a title-cased name equals lower-casing the original |
| Ascii.LowerIdempotent | sistema_inventario.py:137 | lower-casing twice is lower-casing once |
| Ascii.Contains | sistema_inventario.py:141 | `needle in hay` holds exactly when the needle occurs at some position of the haystack |
| Ascii.ContainsSelf | sistema_inventario.py:141 | every string contains itself |
| Seqs.Filter | sistema_inventario.py:177 | the comprehension keeps, in order, exactly the elements that pass, each as often as in the input |
| Seqs.FirstMaxIndex | sistema_inventario.py:202 | `max` with a key returns an element whose key no element exceeds, and every earlier element's key is strictly smaller (the first maximum) |
| Seqs.FirstMinIndex | sistema_inventario.py:203 | `min` with a key returns the first element whose key no element undercuts |
| Seqs.AllAfterRemove | sistema_inventario.py:149 | removing one element keeps a property that every element had |
| Productos.NormalizarNombre | sistema_inventario.py:16 | the stored name `nombre.strip().title()` is exactly as long as the stripped input: title-casing changes letters in place and adds or drops nothing |
| Productos.NormalizarSoloRecortaYCapitaliza | sistema_inventario.py:16 | ignoring case, the normalised name is the stripped input, so normalisation only trims and changes case |
| Productos.EsBlanco | sistema_inventario.py:24 | `not s or not s.strip()` holds exactly when every character of the string is whitespace, the empty string included |
| Productos.NormalizarIdempotente | sistema_inventario.py:16 | normalising a stored name gives it back, so a stored name is its own look-up key |
| Productos.NormalizarIgnoraMayusculas | sistema_inventario.py:125 | normalisation ignores the case of its input |
| Productos.NombreValidoNoBlanco | sistema_inventario.py:24-28 | a constructed product's name is not blank and is already stripped |
| Productos.ValidarNombre | sistema_inventario.py:20-28 | a name passes exactly when its stripped length is at least 2; a blank name fails as empty and a one-character name as too short |
| Productos.ValidarPrecio | sistema_inventario.py:30-37 | a price passes exactly when it is not negative |
| Productos.ValidarCantidad | sistema_inventario.py:39-46 | a quantity passes exactly when it is not negative |
| Productos.Crear | sistema_inventario.py:11-18 | construction succeeds exactly when name, price and quantity all pass. The result is valid and keeps the normalised name, the price and the quantity. Name errors come before price errors, which come before quantity errors |
| Productos.CrearReconstruye | sistema_inventario.py:11-18 | rebuilding a valid product from its own fields returns that product |
| Productos.ActualizarPrecio | sistema_inventario.py:48-52 | a negative price is refused; otherwise only the price changes, to the new value |
| Productos.ActualizarCantidad | sistema_inventario.py:54-58 | a negative quantity is refused; otherwise only the quantity changes, to the new value |
| Productos.ValorTotal | sistema_inventario.py:60-61 | the value of a product with non-negative price and stock is non-negative, and zero when either factor is zero |
| Productos.AgregarStock | sistema_inventario.py:63-69 | a negative amount is refused by the quantity check and zero by the positivity check; otherwise the stock grows by the amount and nothing else changes |
| Productos.ReducirStock | sistema_inventario.py:71-82 | negative, zero and larger-than-stock amounts are refused; the last error reports available and requested units; otherwise the stock shrinks by the amount and never goes negative |
| Productos.ActualizacionesConservanValido | sistema_inventario.py:48-82 | every successful update of a valid product gives a valid product |
| Productos.AgregarLuegoReducir | sistema_inventario.py:63-82 | adding `n` units and then removing `n` gives back the product |
| Productos.ReducirLuegoAgregar | sistema_inventario.py:63-82 | removing `n` units and then adding `n` gives back the product |
| Inventarios.IndiceDe | sistema_inventario.py:127-131 | the scan returns the first position stored under the key, and nothing exactly when no product has that name |
| Inventarios.UnicoEsPrimero | sistema_inventario.py:127-129 | with unique names, every match is the first match |
| Inventarios.BuscarProducto | sistema_inventario.py:121-131 | a blank query is an error; otherwise the result is absent exactly when no product has the normalised name, and otherwise it is the first such product |
| Inventarios.BuscarPorSuNombre | sistema_inventario.py:121-131 | in a well-formed inventory every product is found by its own name |
| Inventarios.BuscarIgnoraMayusculas | sistema_inventario.py:125 | a look-up gives the same answer for the lower- or upper-cased query |
| Inventarios.BuscarIgnoraEspacios | sistema_inventario.py:122-125 | whitespace around the query changes neither the blank check nor the key, so the look-up gives the same answer |
| Inventarios.AgregarProducto | sistema_inventario.py:103-119 | a new name is appended. A known name is left alone when the merge is declined. When it is accepted, the first match's stock grows by the new quantity, or the merge fails with the stock error |
| Inventarios.AnadirConserva | sistema_inventario.py:118 | appending a valid product under a new name keeps the inventory well formed (valid products, unique names) |
| Inventarios.ReemplazarConserva | sistema_inventario.py:112 | replacing a product by a valid one of the same name keeps the inventory well formed |
| Inventarios.QuitarConserva | sistema_inventario.py:149 | removing a product keeps the inventory well formed and leaves nothing under its name |
| Inventarios.AgregarConservaBienFormado | sistema_inventario.py:103-119 | adding a valid product to a well-formed inventory keeps it well formed, whether appended or merged |
| Inventarios.AgregarLongitud | sistema_inventario.py:103-119 | a successful add keeps the length for a known name and adds one for a new name |
| Inventarios.EliminarProducto | sistema_inventario.py:146-154 | a blank name is an error. The flag is true exactly when a product has the normalised name, and then the first such product is removed; otherwise the list is unchanged |
| Inventarios.EliminarConservaBienFormado | sistema_inventario.py:146-154 | removing keeps a well-formed inventory well formed, leaves nothing under the name, and shrinks the list by one exactly when something was removed |
| Inventarios.EliminarIgnoraEspacios | sistema_inventario.py:146-147 | removal goes through the look-up, so whitespace around the name gives the same result |
| Inventarios.EliminarDeshaceAgregar | sistema_inventario.py:103-154 | adding a valid product under a new name and removing it by that name restores the inventory |
| Inventarios.Coincide | sistema_inventario.py:141 | a product matches a pattern exactly when the pattern occurs at some position of its lower-cased name |
| Inventarios.BuscarPorPatron | sistema_inventario.py:133-144 | a blank pattern finds nothing. Otherwise a product is found exactly when it is in the inventory and the stripped, lower-cased pattern occurs in its lower-cased name. Inventory order and multiplicity are kept |
| Inventarios.PatronEncuentraSuNombre | sistema_inventario.py:133-144 | a valid product is found by a search for its own name |
| Inventarios.PatronIgnoraMayusculas | sistema_inventario.py:137 | the search gives the same list for the lower- or upper-cased pattern |
| Inventarios.PatronIgnoraEspacios | sistema_inventario.py:134-137 | whitespace around the pattern changes neither the blank check nor the stripped key, so the search gives the same list |
| Inventarios.ProductosBajoStock | sistema_inventario.py:176-178 | a product is listed exactly when it is in the inventory with at most `limite` units, in inventory order and as often as it occurs |
| Inventarios.ValorInventario | sistema_inventario.py:156-158 | the sum of the products' values is not negative when no product's value is negative |
| Inventarios.ValorNoNegativo | sistema_inventario.py:156-158 | an inventory of valid products is never worth less than zero |
| Inventarios.ValorConcatenacion | sistema_inventario.py:156-158 | the value of two lists joined is the sum of their values |
| Inventarios.ValorReemplazo | sistema_inventario.py:156-158 | replacing a product changes the total by the difference of the two values |
| Inventarios.AgregarNuevoValor | sistema_inventario.py:118 | appending a new product adds its value to the total |
| Inventarios.AgregarFusionValor | sistema_inventario.py:112 | a merge with a positive quantity succeeds and exchanges the old product's value for the merged product's |
| Inventarios.ValorFusion | sistema_inventario.py:112 | merging `n` units into a product raises the total by `n` times its price |
| Inventarios.EliminarValor | sistema_inventario.py:146-158 | removing a product lowers the total by exactly its value |
| Reportes.GenerarReporte | sistema_inventario.py:185-217 | an empty inventory has no report. Otherwise the report counts all products and its extremes are members. Every price lies between the cheapest and dearest, and every value between the smallest and largest. Its value total, unit total and average price (sum of prices over the count) are those of the inventory. Its low-stock list holds exactly the products that are low on stock |
| Reportes.TotalUnidades | sistema_inventario.py:192 | the unit total of a list without negative stock is not negative |
| Reportes.SumaPrecios | sistema_inventario.py:193 | the price sum of a list without negative prices is not negative |
| Reportes.ReporteExtremos | sistema_inventario.py:202-211 | the four extremes of the report are the first maximum and first minimum by price and by value |
| Reportes.MasCaroEsElPrimero | sistema_inventario.py:202 | the most expensive product is the first at the top price |
| Reportes.MasBaratoEsElPrimero | sistema_inventario.py:203 | the cheapest product is the first at the bottom price |
| Reportes.MayorValorEsElPrimero | sistema_inventario.py:210 | the product of largest value is the first at the top value: every earlier product is worth strictly less |
| Reportes.MenorValorEsElPrimero | sistema_inventario.py:211 | the product of smallest value is the first at the bottom value: every earlier product is worth strictly more |
| Reportes.PromedioEntreExtremos | sistema_inventario.py:193 | the average price lies between the cheapest and dearest price |
| Reportes.PromedioAcotado | sistema_inventario.py:193 | the mean of prices between two bounds lies between them |
| Reportes.PromedioCotaInferior | sistema_inventario.py:193 | the mean of prices of at least `lo` is at least `lo` |
| Reportes.PromedioCotaSuperior | sistema_inventario.py:193 | the mean of prices of at most `hi` is at most `hi` |
| Reportes.SumaPreciosCotaInferior | sistema_inventario.py:193 | `n` prices of at least `lo` sum to at least `n` copies of `lo` (`Veces(n, lo)`, which `VecesEsProducto` proves equal to `n * lo`) |
| Reportes.SumaPreciosCotaSuperior | sistema_inventario.py:193 | `n` prices of at most `hi` sum to at most `n` copies of `hi` |
| Reportes.UnidadesNoNegativas | sistema_inventario.py:192 | total units of non-negative stocks are non-negative |
| Reportes.UnidadesConcatenacion | sistema_inventario.py:192 | units of two lists joined are the sum of their units |
| Reportes.UnidadesReemplazo | sistema_inventario.py:192 | replacing a product changes the units by the difference of the two stocks |
| Reportes.AgregarUnidades | sistema_inventario.py:103-119 | a successful add raises the unit total by the new product's quantity, except when the merge was declined |
| Escenarios.CrearLaptop | sistema_inventario.py:11-18 | "laptop dell" at 899.99 with 5 units is stored as "Laptop Dell" and is worth 4499.95 |
| Escenarios.ReducirDemasiado | sistema_inventario.py:78-79 | taking 10 units from 5 fails, reporting 5 available and 10 requested |
| Escenarios.BajoStockDeDos | sistema_inventario.py:176-177 | of products with 3 and 10 units, only the first is low on stock |
| Escenarios.FusionarMouse | sistema_inventario.py:108-116 | adding "Mouse" again merges 5 units into the stored 10 when accepted and changes nothing when declined |

## Left out

- Console output: every `print`, and the messages of the updates. The
  operations return values instead.
- The merge prompt: `input()` at line 110 and the accepted answers at line
  111 become the boolean `fusionar`.
- The interactive shell and its helpers (from `solicitar_datos_producto`
  on, line 235 to the end of the file). This includes the seed data, which
  appends products to the list directly.
- `__str__`, `__repr__`, `listar_productos` and the printed layout of the
  report. Only the figures of the report are modelled. The low-stock label
  of `__str__` is the predicate `StockBajo`.
- `Inventario.__len__`: it is the sequence length `|inv|`.
- Runtime type checks and coercion: the `isinstance` tests, `float()`,
  `int()` and the errors they raise. Prices are reals, quantities are
  integers and names are strings by type. Passing a non-integer to
  `agregar_stock` (where line 65 compares the raw argument with 0) is not
  modelled, for the same reason.
- Floating point: prices, values and averages are exact reals, so rounding
  and the `:.2f` formatting are not modelled. The price check at line 36
  (`precio_float < 0`) lets NaN and infinity through; a real is neither, so
  "a price passes exactly when it is not negative" covers finite prices
  only.
- Unicode: `strip`, `title`, `lower` and `in` are modelled over ASCII.
  Other characters are neither whitespace nor letters and pass through
  unchanged. Python's full Unicode tables are not part of this model. So a
  letter after an accented one starts a new word here: the seed names
  "Mouse Inalámbrico" and "Teclado Mecánico" (lines 351-352) stay as they
  are under Python's `title()`, but the model's `NormalizarNombre` gives
  "Mouse InaláMbrico" and "Teclado MecáNico".
- Object identity: `list.remove` drops the very object `buscar_producto`
  returned. That object is the first product with the name, so the model
  removes at that position.
- Inventarios.AgregarFusionValor: states the change of total as the merged
  product's value against the old one. The form "`n` times the price" is
  `ValorFusion`, about the same list update.
