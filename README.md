# Sevici station queries in Dafny

This project models `src/sevici_utiles.py`, a module of query helpers over
records of the Sevici bike-share network in Seville. Each `EstacionSevici`
record holds a name, an address, a latitude and longitude, the capacity in
docks, the free docks and the available bikes. The module never builds or
changes a record. It answers six kinds of question:

- the colour a station is painted with (`selecciona_color`);
- fleet totals and the occupancy percentage (`calcula_estadisticas`);
- stations whose address contains a text, ignoring case (`busca_estaciones_direccion`);
- stations whose bikes-per-dock ratio exceeds a threshold (`busca_estaciones_con_disponibilidad`);
- the nearest station with at least one bike (`calcula_distancia`, `busca_estacion_mas_cercana`);
- the nearest such stations to an origin and to a destination (`calcula_ruta`).

Layout:

- `secuencias.dfy`, module `Secuencias`: the order-preserving filter `Filtra` that the
  two search loops build, the subsequence relation, and the substring test behind
  Python's `in` on strings, with their lemmas.
- `sevici_utiles.dfy`, module `SeviciUtiles`: the record, the six operations, and the
  properties they promise.

Each operation keeps the form it has in Python. `selecciona_color`,
`calcula_distancia` and `calcula_ruta` are expressions and calls, so they are
functions. The other four run a loop over
accumulators or a result list, so they are methods with `for` loops. Each of those
methods is proved equal to a specification function (`SumaBicicletas`, `SumaCapacidad`,
`Filtra`, `MasCercana`), and the lemmas state what that function guarantees.

Numbers are modelled exactly:

- A ratio `bicicletas_disponibles / capacidad` is a `real` quotient.
- Every distance is kept squared. `CalculaDistanciaCuadrado` returns the square of
  what `calcula_distancia` returns.
- The running minimum starts at the square of the module's sentinel 1e11.
- Squaring is strictly increasing on non-negative reals (`CuadradoPreservaOrden`), so
  each `<` between squared distances decides the same as the module's `<` between
  the true distances.

Where the code runs off the end of `selecciona_color` (the ratio is not positive),
Python returns `None`. The model returns `None` of `Option<Color>` there.

Where `calcula_estadisticas` divides by a total capacity of zero, Python raises
`ZeroDivisionError`. The model returns `Err(DivisionPorCero)` there.

Where the docstrings and the code differ, the model follows the code:

- The docstring of `selecciona_color` promises one of "green", "orange", "red" or
  "gray". The code returns `None` whenever the ratio is `<= 0`, which includes a
  negative bike count.
- The docstring of `busca_estacion_mas_cercana` promises `None` only when no station
  has a bike. The code also ignores stations at distance 1e11 or more, because of its
  initial sentinel. `SinCandidatas` states this exact condition.

## Model

| member | source | states |
|---|---|---|
| `SeviciUtiles.SeleccionaColor` | src/sevici_utiles.py:16-24 | "gray" exactly when capacity is 0. For capacity > 0, in integer terms (b bikes, c docks): green iff 3b >= 2c, orange iff c <= 3b < 2c, red iff 0 < 3b < c, no colour (Python's None) iff b <= 0. The lower bounds are inclusive. |
| `SeviciUtiles.ColorSegunRatio` | src/sevici_utiles.py:19-24 | The ladder on a ratio never yields gray. It yields no colour exactly when the ratio is not positive. The rank of its colour (none 0, red 1, orange 2, green 3) is the number of thresholds reached: at least 2/3, at least 1/3, above 0. |
| `SeviciUtiles.RatioCruzado` | src/sevici_utiles.py:18-23 | For capacity > 0, comparing the ratio with a fraction n/d (`>=` or `>`) is the same as comparing d·bikes with n·capacity. |
| `SeviciUtiles.ColorMonotono` | src/sevici_utiles.py:19-24 | At the same positive capacity, more bikes never give a worse colour in the order none < red < orange < green. |
| `SeviciUtiles.ColorSinBicicletas` | src/sevici_utiles.py:23-24 | A coherent station with docks gets no colour exactly when it has no bikes. |
| `SeviciUtiles.CalculaEstadisticas` | src/sevici_utiles.py:34-45 | Fails with a division-by-zero error iff the capacity total is 0. Otherwise it returns the sum of available bikes, the sum of capacities, (1 − bikes/capacity)·100, and the number of stations, which equals the list length. |
| `SeviciUtiles.CapacidadTotalCero` | src/sevici_utiles.py:35-43 | With no negative capacity, the capacity total is non-negative. It is 0 exactly when every station has capacity 0, which includes the empty list. Those are the inputs on which the statistics fail. |
| `SeviciUtiles.SumasAcotadas` | src/sevici_utiles.py:38-40 | Over coherent stations, 0 <= bike total <= capacity total. |
| `SeviciUtiles.OcupacionEsPorcentaje` | src/sevici_utiles.py:43 | Over coherent stations with a non-zero capacity total, the occupancy lies between 0 and 100. |
| `Secuencias.Filtra` | src/sevici_utiles.py:61-65 | The filter both searches build. Every element of the result is in the input and satisfies the criterion. Every input element that satisfies it is in the result. The result is never longer than the input. |
| `Secuencias.FiltraSubsecuencia` | src/sevici_utiles.py:61-65 | The filter's result is a subsequence of its input: input order is kept. |
| `Secuencias.FiltraMultiset` | src/sevici_utiles.py:81-87 | The filter keeps every occurrence of a matching element and drops every occurrence of a non-matching one, so no duplicate is lost. |
| `Secuencias.EsSubcadenaSii` | src/sevici_utiles.py:63 | The recursive substring test holds iff the query occurs as a contiguous block at some position of the text. |
| `Secuencias.EsSubcadena` | src/sevici_utiles.py:63 | The substring test never holds for a query longer than the text. At equal lengths it holds only when query and text are equal. The empty query occurs in every text. |
| `SeviciUtiles.Minusculas` | src/sevici_utiles.py:63 | Lower-casing keeps the length and maps each character on its own: `A`–`Z` to `a`–`z`, every other character unchanged. No upper-case ASCII letter is left. |
| `SeviciUtiles.MinusculasIdempotente` | src/sevici_utiles.py:63 | Lower-casing twice is the same as lower-casing once. |
| `SeviciUtiles.BuscaEstacionesDireccion` | src/sevici_utiles.py:50-65 | The result is the filter of the input by "lower-cased query is a substring of lower-cased address". Each station occurs in it as often as in the input if it matches, and not at all if it does not. The result is a subsequence of the input. |
| `SeviciUtiles.BusquedaSinMayusculas` | src/sevici_utiles.py:52-63 | Two queries with the same lower-case form find exactly the same stations. |
| `SeviciUtiles.BusquedaEjemplo` | src/sevici_utiles.py:52-63 | The query "MAIN" finds a station whose address is "Main St". |
| `SeviciUtiles.BuscaEstacionesConDisponibilidad` | src/sevici_utiles.py:69-87 | The result is the input filtered by "capacity ≠ 0 and bikes/capacity > threshold", with threshold 0.5 by default. Each station occurs as often as in the input if it qualifies, and not at all otherwise. The result is a subsequence of the input. |
| `SeviciUtiles.UmbralMasAlto` | src/sevici_utiles.py:83-86 | Raising the threshold only removes stations. The stricter result equals the looser result filtered again. |
| `SeviciUtiles.UmbralEstricto` | src/sevici_utiles.py:85 | At threshold 0.5, a station with 5 bikes in 10 docks is excluded and one with 6 in 10 is kept: the inequality is strict. |
| `SeviciUtiles.CalculaDistanciaCuadrado` | src/sevici_utiles.py:89-100 | The squared distance is never negative, and it is zero between a point and itself. |
| `SeviciUtiles.DistanciaEsMetrica` | src/sevici_utiles.py:100 | The distance is symmetric and non-negative. It is zero between a point and itself. |
| `SeviciUtiles.CuadradoPreservaOrden` | src/sevici_utiles.py:100-120 | For non-negative x and y, x < y iff x² < y², so squared distances order stations as true distances do. |
| `SeviciUtiles.MasCercana` | src/sevici_utiles.py:114-123 | A station the scan keeps is in the list, has bikes and lies within the sentinel distance. |
| `SeviciUtiles.MasCercanaCota` | src/sevici_utiles.py:114-122 | The running minimum is at most the sentinel, and at most the distance of every station with bikes. |
| `SeviciUtiles.MasCercanaPrimera` | src/sevici_utiles.py:116-122 | The kept station sits at a position before which every station with bikes is strictly farther (strict `<`: the first of a tie wins). |
| `SeviciUtiles.MasCercanaCorrecta` | src/sevici_utiles.py:102-123 | The scan's result is None iff no station with bikes is within the sentinel distance. Otherwise it is the station at the first position holding a station with bikes and least distance. |
| `SeviciUtiles.MasCercanaUnica` | src/sevici_utiles.py:102-123 | The declarative description admits exactly one answer, so it fully determines the lookup. |
| `SeviciUtiles.BuscaEstacionMasCercana` | src/sevici_utiles.py:102-123 | The loop computes the scan. Its result satisfies the description. It is None iff no station with bikes lies within the sentinel. Otherwise it is an input station with bikes. |
| `SeviciUtiles.SoloConBicicletas` | src/sevici_utiles.py:117 | Example: a station without bikes at distance 0 from the point loses to a farther one with bikes, in either list order. The general statement is the `MasCercana` contract. |
| `SeviciUtiles.CalculaRuta` | src/sevici_utiles.py:128-140 | Each end of the route satisfies the nearest-station description, for the origin and for the destination over the same list. The two may be the same station. |
| `SeviciUtiles.RutaSinBicicletas` | src/sevici_utiles.py:140 | If no station has bikes, the route is (None, None). |

## Left out

- Floating point: ratios, the occupancy percentage and distances are exact reals. IEEE
  rounding of `/`, `**2` and `**(1/2)` is not modelled, and neither are the float
  approximations of the constants 2/3 and 1/3.
- CalculaDistanciaCuadrado: returns the squared distance. Dafny has no square root, and
  only comparisons of distances matter to the module. `CuadradoPreservaOrden` shows
  that those comparisons are unchanged.
- Lower-casing is ASCII only (`A`–`Z`). Python's Unicode `str.lower()` (accented
  capitals, special cases) is not modelled.
- The occupancy percentage is `PorcentajeOcupacion` on exact reals. Its float value is
  not modelled.
- Raising `ZeroDivisionError` is modelled as an `Err` result rather than an exception.
- Building station records from a data feed is not part of this module, so it is not
  part of this model. Field types are not checked at run time in the module, and they
  are fixed here: counts are `int`, coordinates are `real`, text is `string`.
- DistanciaEsMetrica: states only that a point is at distance zero from itself, not
  the converse.
