/**
 * Query helpers over Sevici bike-share station records: availability colour,
 * fleet statistics, address search, availability filter, nearest station with
 * bikes, and a two-point route.
 *
 * Numbers: ratios are exact `real` quotients (the Python module uses floats), and
 * every distance is kept SQUARED. The square root is monotone on the
 * non-negative reals, so comparing squared distances decides every `<` the
 * Python module decides on true distances (lemma CuadradoPreservaOrden).
 */
module SeviciUtiles {
  import opened Secuencias

  datatype Option<T> = None | Some(value: T)

  datatype Result<T, E> = Ok(value: T) | Err(error: E)

  /** One station record; the module never builds, changes or checks one. */
  datatype EstacionSevici = EstacionSevici(
    nombre: string,
    direccion: string,
    latitud: real,
    longitud: real,
    capacidad: int,
    puestosLibres: int,
    bicicletasDisponibles: int)

  /** A (latitude, longitude) pair. */
  type Punto = (real, real)

  /** The counts a well-formed feed delivers. Nothing in the module enforces it. */
  predicate Coherente(e: EstacionSevici)
  {
    0 <= e.bicicletasDisponibles && 0 <= e.puestosLibres
    && e.bicicletasDisponibles + e.puestosLibres <= e.capacidad
  }

  // ---------------------------------------------------------------------
  // Availability colour

  /** The tags the module returns as the strings "green", "orange", "red", "gray". */
  datatype Color = Green | Orange | Red | Gray

  /** Bikes per dock; only defined for a station that has docks. */
  function Disponibilidad(e: EstacionSevici): real
    requires e.capacidad != 0
  {
    (e.bicicletasDisponibles as real) / (e.capacidad as real)
  }

  /** For a station with docks, comparing the ratio with a fraction n/d is
      comparing integer cross-products. */
  lemma RatioCruzado(e: EstacionSevici, n: int, d: int)
    requires e.capacidad > 0 && d > 0
    ensures Disponibilidad(e) >= (n as real) / (d as real)
            <==> d * e.bicicletasDisponibles >= n * e.capacidad
    ensures Disponibilidad(e) > (n as real) / (d as real)
            <==> d * e.bicicletasDisponibles > n * e.capacidad
  {
    var b, c := e.bicicletasDisponibles as real, e.capacidad as real;
    var q := (n as real) / (d as real);
    assert Disponibilidad(e) * c == b;
    assert q * (d as real) == n as real;
    assert (d * e.bicicletasDisponibles) as real == (d as real) * b;
    assert (n * e.capacidad) as real == (n as real) * c;
    MultiplicarPreservaOrden(Disponibilidad(e), q, c * (d as real));
    assert Disponibilidad(e) * (c * (d as real)) == (d as real) * b;
    assert q * (c * (d as real)) == (n as real) * c;
  }

  /** Multiplying by a positive factor keeps both `<=` and `<`. */
  lemma MultiplicarPreservaOrden(x: real, y: real, f: real)
    requires f > 0.0
    ensures x >= y <==> x * f >= y * f
    ensures x > y <==> x * f > y * f
  {
    assert x * f - y * f == (x - y) * f;
  }

  /** The colour a station is painted with. `None` is the value Python
      produces by running off the end of the function, which happens when
      the ratio is not positive. */
  function SeleccionaColor(e: EstacionSevici): (r: Option<Color>)
    ensures e.capacidad == 0 <==> r == Some(Gray)
    ensures e.capacidad > 0 ==>
      var b, c := e.bicicletasDisponibles, e.capacidad;
      && (r == Some(Green) <==> 3 * b >= 2 * c)
      && (r == Some(Orange) <==> c <= 3 * b < 2 * c)
      && (r == Some(Red) <==> 0 < 3 * b < c)
      && (r == None <==> b <= 0)
  {
    if e.capacidad == 0 then Some(Gray)
    else
      UmbralesCruzados(e);
      ColorSegunRatio(Disponibilidad(e))
  }

  /** The three thresholds of the ladder, restated on integers by cross-multiplying
      (only meaningful when the capacity is positive). */
  lemma UmbralesCruzados(e: EstacionSevici)
    ensures e.capacidad > 0 ==>
      var b, c := e.bicicletasDisponibles, e.capacidad;
      && (Disponibilidad(e) >= 2.0 / 3.0 <==> 3 * b >= 2 * c)
      && (Disponibilidad(e) >= 1.0 / 3.0 <==> 3 * b >= c)
      && (Disponibilidad(e) > 0.0 <==> b > 0)
  {
    if e.capacidad > 0 {
      RatioCruzado(e, 2, 3);
      RatioCruzado(e, 1, 3);
      RatioCruzado(e, 0, 1);
    }
  }

  /** The threshold ladder on the ratio, with inclusive lower bounds. The rank
      of the colour is the number of thresholds (2/3, 1/3, above 0) the ratio
      reaches, and gray is never produced here. */
  function ColorSegunRatio(d: real): (r: Option<Color>)
    ensures r != Some(Gray)
    ensures r == None <==> d <= 0.0
    ensures Rango(r) == (if d >= 2.0 / 3.0 then 1 else 0)
                      + (if d >= 1.0 / 3.0 then 1 else 0)
                      + (if d > 0.0 then 1 else 0)
  {
    if d >= 2.0 / 3.0 then Some(Green)
    else if d >= 1.0 / 3.0 then Some(Orange)
    else if d > 0.0 then Some(Red)
    else None
  }

  /** How good a colour is: no colour, red, orange, green. */
  function Rango(c: Option<Color>): int
  {
    match c
    case None => 0
    case Some(Red) => 1
    case Some(Orange) => 2
    case Some(Green) => 3
    case Some(Gray) => -1
  }

  /** At equal capacity, more bikes never give a worse colour. */
  lemma ColorMonotono(e1: EstacionSevici, e2: EstacionSevici)
    requires e1.capacidad == e2.capacidad > 0
    requires e1.bicicletasDisponibles <= e2.bicicletasDisponibles
    ensures Rango(SeleccionaColor(e1)) <= Rango(SeleccionaColor(e2))
  {
  }

  /** A coherent station with docks gets no colour exactly when it has no bikes. */
  lemma ColorSinBicicletas(e: EstacionSevici)
    requires Coherente(e) && e.capacidad > 0
    ensures SeleccionaColor(e) == None <==> e.bicicletasDisponibles == 0
  {
  }

  // ---------------------------------------------------------------------
  // Fleet statistics

  /** Sum of available bikes over the list. */
  function SumaBicicletas(s: seq<EstacionSevici>): int
  {
    if |s| == 0 then 0 else SumaBicicletas(s[..|s| - 1]) + s[|s| - 1].bicicletasDisponibles
  }

  /** Sum of capacities over the list. */
  function SumaCapacidad(s: seq<EstacionSevici>): int
  {
    if |s| == 0 then 0 else SumaCapacidad(s[..|s| - 1]) + s[|s| - 1].capacidad
  }

  /** Percentage of the total capacity that is not holding an available bike. */
  function PorcentajeOcupacion(bicicletas: int, capacidad: int): real
    requires capacidad != 0
  {
    (1.0 - (bicicletas as real) / (capacidad as real)) * 100.0
  }

  datatype Estadisticas = Estadisticas(
    totalBicicletasDisponibles: int,
    totalCapacidad: int,
    porcentajeOcupacion: real,
    totalEstaciones: nat)

  /** The unguarded division in `calcula_estadisticas` raises ZeroDivisionError. */
  datatype ErrorEstadisticas = DivisionPorCero

  /** Accumulates the three totals in one pass, then divides once. */
  method CalculaEstadisticas(estaciones: seq<EstacionSevici>)
    returns (r: Result<Estadisticas, ErrorEstadisticas>)
    ensures r.Err? <==> SumaCapacidad(estaciones) == 0
    ensures r.Ok? ==>
      && r.value.totalBicicletasDisponibles == SumaBicicletas(estaciones)
      && r.value.totalCapacidad == SumaCapacidad(estaciones)
      && r.value.totalEstaciones == |estaciones|
      && r.value.porcentajeOcupacion
         == PorcentajeOcupacion(SumaBicicletas(estaciones), SumaCapacidad(estaciones))
  {
    var totalBicicletas, totalCapacidad, totalEstaciones := 0, 0, 0;
    for i := 0 to |estaciones|
      invariant totalBicicletas == SumaBicicletas(estaciones[..i])
      invariant totalCapacidad == SumaCapacidad(estaciones[..i])
      invariant totalEstaciones == i
    {
      assert estaciones[..i + 1][..i] == estaciones[..i];
      totalBicicletas := totalBicicletas + estaciones[i].bicicletasDisponibles;
      totalCapacidad := totalCapacidad + estaciones[i].capacidad;
      totalEstaciones := totalEstaciones + 1;
    }
    assert estaciones[..|estaciones|] == estaciones;
    if totalCapacidad == 0 {
      return Err(DivisionPorCero);
    }
    var porcentaje := PorcentajeOcupacion(totalBicicletas, totalCapacidad);
    r := Ok(Estadisticas(totalBicicletas, totalCapacidad, porcentaje, totalEstaciones));
  }

  /** With no negative capacities, the total capacity is zero exactly when
      every station has zero docks (the empty list included): those are the
      inputs on which the statistics fail. */
  lemma {:induction false} CapacidadTotalCero(s: seq<EstacionSevici>)
    requires forall i :: 0 <= i < |s| ==> s[i].capacidad >= 0
    ensures SumaCapacidad(s) >= 0
    ensures SumaCapacidad(s) == 0 <==> forall i :: 0 <= i < |s| ==> s[i].capacidad == 0
  {
    if |s| > 0 {
      CapacidadTotalCero(s[..|s| - 1]);
    }
  }

  /** Over coherent stations the bike total lies between 0 and the capacity total. */
  lemma {:induction false} SumasAcotadas(s: seq<EstacionSevici>)
    requires forall i :: 0 <= i < |s| ==> Coherente(s[i])
    ensures 0 <= SumaBicicletas(s) <= SumaCapacidad(s)
  {
    if |s| > 0 {
      SumasAcotadas(s[..|s| - 1]);
    }
  }

  /** Over coherent stations with some docks, occupancy is a percentage. */
  lemma OcupacionEsPorcentaje(s: seq<EstacionSevici>)
    requires forall i :: 0 <= i < |s| ==> Coherente(s[i])
    requires SumaCapacidad(s) != 0
    ensures 0.0 <= PorcentajeOcupacion(SumaBicicletas(s), SumaCapacidad(s)) <= 100.0
  {
    SumasAcotadas(s);
    CocienteUnidad(SumaBicicletas(s) as real, SumaCapacidad(s) as real);
  }

  /** A quotient of a non-negative number by a larger positive one lies in [0, 1]. */
  lemma CocienteUnidad(b: real, c: real)
    requires 0.0 <= b <= c && c > 0.0
    ensures 0.0 <= b / c <= 1.0
  {
    var q := b / c;
    assert q * c == b;
    MultiplicarPreservaOrden(q, 1.0, c);
    MultiplicarPreservaOrden(q, 0.0, c);
    assert 1.0 * c == c;
    assert 0.0 * c == 0.0;
  }

  // ---------------------------------------------------------------------
  // Address search

  /** ASCII lower-casing of one character. */
  function MinusculaChar(c: char): char
  {
    if 'A' <= c <= 'Z' then (c as int + 32) as char else c
  }

  /** ASCII lower-casing of a string, character by character. */
  function Minusculas(s: string): (r: string)
    ensures |r| == |s|
    ensures forall i :: 0 <= i < |s| ==> r[i] == MinusculaChar(s[i])
    ensures forall i :: 0 <= i < |s| ==> !('A' <= r[i] <= 'Z')
  {
    if |s| == 0 then [] else [MinusculaChar(s[0])] + Minusculas(s[1..])
  }

  /** The search criterion: the lower-cased query occurs in the lower-cased address. */
  function CoincideDireccion(direccionParcial: string): EstacionSevici -> bool
  {
    (e: EstacionSevici) => EsSubcadena(Minusculas(direccionParcial), Minusculas(e.direccion))
  }

  /** Stations whose address contains the query, ignoring case, in input order. */
  method BuscaEstacionesDireccion(estaciones: seq<EstacionSevici>, direccionParcial: string)
    returns (r: seq<EstacionSevici>)
    ensures r == Filtra(estaciones, CoincideDireccion(direccionParcial))
    ensures forall e :: multiset(r)[e] ==
                        (if EsSubcadena(Minusculas(direccionParcial), Minusculas(e.direccion))
                         then multiset(estaciones)[e] else 0)
    ensures EsSubsecuencia(r, estaciones)
  {
    r := [];
    for i := 0 to |estaciones|
      invariant r == Filtra(estaciones[..i], CoincideDireccion(direccionParcial))
    {
      assert estaciones[..i + 1][..i] == estaciones[..i];
      if EsSubcadena(Minusculas(direccionParcial), Minusculas(estaciones[i].direccion)) {
        r := r + [estaciones[i]];
      }
    }
    assert estaciones[..|estaciones|] == estaciones;
    FiltraMultiset(estaciones, CoincideDireccion(direccionParcial));
    FiltraSubsecuencia(estaciones, CoincideDireccion(direccionParcial));
  }

  /** Lower-casing the same character twice changes nothing more. */
  lemma {:induction false} MinusculasIdempotente(s: string)
    ensures Minusculas(Minusculas(s)) == Minusculas(s)
  {
    if |s| > 0 {
      MinusculasIdempotente(s[1..]);
    }
  }

  /** Queries that differ only in letter case find the same stations. */
  lemma BusquedaSinMayusculas(s: seq<EstacionSevici>, q1: string, q2: string)
    requires Minusculas(q1) == Minusculas(q2)
    ensures Filtra(s, CoincideDireccion(q1)) == Filtra(s, CoincideDireccion(q2))
  {
    FiltraExtensional(s, CoincideDireccion(q1), CoincideDireccion(q2));
  }

  /** An upper-case query finds a mixed-case address. */
  lemma BusquedaEjemplo(e: EstacionSevici)
    requires e.direccion == "Main St"
    ensures Filtra([e], CoincideDireccion("MAIN")) == [e]
  {
    assert Minusculas("MAIN") == "main";
    assert Minusculas("Main St") == "main st";
    assert "main" <= "main st";
  }

  // ---------------------------------------------------------------------
  // Availability filter

  /** The filter criterion: the station has docks and its ratio is strictly
      above the threshold. */
  function ConDisponibilidad(minDisponibilidad: real): EstacionSevici -> bool
  {
    (e: EstacionSevici) => e.capacidad != 0 && Disponibilidad(e) > minDisponibilidad
  }

  /** Stations with docks whose ratio exceeds the threshold, in input order. */
  method BuscaEstacionesConDisponibilidad(
    estaciones: seq<EstacionSevici>, minDisponibilidad: real := 0.5)
    returns (r: seq<EstacionSevici>)
    ensures r == Filtra(estaciones, ConDisponibilidad(minDisponibilidad))
    ensures forall e :: multiset(r)[e] ==
                        (if e.capacidad != 0 && Disponibilidad(e) > minDisponibilidad
                         then multiset(estaciones)[e] else 0)
    ensures EsSubsecuencia(r, estaciones)
  {
    r := [];
    for i := 0 to |estaciones|
      invariant r == Filtra(estaciones[..i], ConDisponibilidad(minDisponibilidad))
    {
      assert estaciones[..i + 1][..i] == estaciones[..i];
      var estacion := estaciones[i];
      if estacion.capacidad != 0 {
        var porcentajeOcupacion := Disponibilidad(estacion);
        if porcentajeOcupacion > minDisponibilidad {
          r := r + [estacion];
        }
      }
    }
    assert estaciones[..|estaciones|] == estaciones;
    FiltraMultiset(estaciones, ConDisponibilidad(minDisponibilidad));
    FiltraSubsecuencia(estaciones, ConDisponibilidad(minDisponibilidad));
  }

  /** Raising the threshold only removes stations: the stricter result is the
      looser result filtered again. */
  lemma UmbralMasAlto(s: seq<EstacionSevici>, m1: real, m2: real)
    requires m1 <= m2
    ensures Filtra(Filtra(s, ConDisponibilidad(m1)), ConDisponibilidad(m2))
            == Filtra(s, ConDisponibilidad(m2))
  {
    FiltraAnidado(s, ConDisponibilidad(m1), ConDisponibilidad(m2));
  }

  /** With the default threshold, a station exactly at one half is left out
      and one just above it is kept. */
  lemma UmbralEstricto(s: seq<EstacionSevici>)
    requires |s| == 2
    requires s[0].capacidad == 10 && s[0].bicicletasDisponibles == 5
    requires s[1].capacidad == 10 && s[1].bicicletasDisponibles == 6
    ensures Filtra(s, ConDisponibilidad(0.5)) == [s[1]]
  {
    assert s[..1][..0] == [];
    assert s[..|s| - 1] == s[..1];
  }

  // ---------------------------------------------------------------------
  // Distance and nearest station

  /** Squared planar Euclidean distance between two (latitude, longitude) pairs. */
  function CalculaDistanciaCuadrado(p1: Punto, p2: Punto): (r: real)
    ensures r >= 0.0
    ensures p1 == p2 ==> r == 0.0
  {
    (p1.0 - p2.0) * (p1.0 - p2.0) + (p1.1 - p2.1) * (p1.1 - p2.1)
  }

  /** The distance is symmetric, never negative, and zero between a point and itself. */
  lemma DistanciaEsMetrica(p1: Punto, p2: Punto)
    ensures CalculaDistanciaCuadrado(p1, p2) == CalculaDistanciaCuadrado(p2, p1)
    ensures CalculaDistanciaCuadrado(p1, p2) >= 0.0
    ensures p1 == p2 ==> CalculaDistanciaCuadrado(p1, p2) == 0.0
  {
  }

  /** For non-negative numbers, squaring keeps strict order. */
  lemma CuadradoCreciente(x: real, y: real)
    requires 0.0 <= x < y
    ensures x * x < y * y
  {
    MultiplicarPreservaOrden(y, x, y);
    assert x * (y - x) >= 0.0;
    assert x * (y - x) == x * y - x * x;
  }

  /** Squaring non-negative numbers keeps `<` in both directions; this is why
      the squared distances decide the same comparisons as the true ones. */
  lemma CuadradoPreservaOrden(x: real, y: real)
    requires x >= 0.0 && y >= 0.0
    ensures x < y <==> x * x < y * y
  {
    if x < y {
      CuadradoCreciente(x, y);
    } else if y < x {
      CuadradoCreciente(y, x);
    }
  }

  /** The initial "smallest distance" of the scan, 1e11, squared. */
  const CentinelaCuadrado: real := 100000000000.0 * 100000000000.0

  function DistanciaEstacion(e: EstacionSevici, p: Punto): real
  {
    CalculaDistanciaCuadrado((e.latitud, e.longitud), p)
  }

  /** The smallest distance seen so far, given the station kept so far. */
  function DistanciaMenor(r: Option<EstacionSevici>, p: Punto): real
  {
    match r
    case None => CentinelaCuadrado
    case Some(e) => DistanciaEstacion(e, p)
  }

  /** The running-minimum scan, as a function of the prefix scanned:
      a station with bikes replaces the kept one when strictly closer. */
  function MasCercana(s: seq<EstacionSevici>, p: Punto): (r: Option<EstacionSevici>)
    ensures r.Some? ==> r.value in s && r.value.bicicletasDisponibles > 0
                        && DistanciaEstacion(r.value, p) < CentinelaCuadrado
  {
    if |s| == 0 then None
    else
      var previa := MasCercana(s[..|s| - 1], p);
      var e := s[|s| - 1];
      if e.bicicletasDisponibles > 0 && DistanciaEstacion(e, p) < DistanciaMenor(previa, p)
      then Some(e)
      else previa
  }

  /** No station with bikes lies within the sentinel distance. */
  ghost predicate SinCandidatas(s: seq<EstacionSevici>, p: Punto)
  {
    forall j :: 0 <= j < |s| && s[j].bicicletasDisponibles > 0 ==>
      DistanciaEstacion(s[j], p) >= CentinelaCuadrado
  }

  /** Position `k` holds a station with bikes, within the sentinel distance,
      no farther than any station with bikes, and strictly closer than every
      earlier one: the first of the nearest. */
  ghost predicate PrimeraMasCercana(s: seq<EstacionSevici>, p: Punto, k: int)
  {
    && 0 <= k < |s|
    && s[k].bicicletasDisponibles > 0
    && DistanciaEstacion(s[k], p) < CentinelaCuadrado
    && (forall j :: 0 <= j < |s| && s[j].bicicletasDisponibles > 0 ==>
          DistanciaEstacion(s[k], p) <= DistanciaEstacion(s[j], p))
    && (forall j :: 0 <= j < k && s[j].bicicletasDisponibles > 0 ==>
          DistanciaEstacion(s[j], p) > DistanciaEstacion(s[k], p))
  }

  /** What the lookup promises, independently of how it scans. */
  ghost predicate EsMasCercana(s: seq<EstacionSevici>, p: Punto, r: Option<EstacionSevici>)
  {
    match r
    case None => SinCandidatas(s, p)
    case Some(e) => exists k :: PrimeraMasCercana(s, p, k) && s[k] == e
  }

  /** The distance kept by the scan never exceeds the sentinel nor the
      distance of any station with bikes. */
  lemma {:induction false} MasCercanaCota(s: seq<EstacionSevici>, p: Punto)
    ensures DistanciaMenor(MasCercana(s, p), p) <= CentinelaCuadrado
    ensures forall j :: 0 <= j < |s| && s[j].bicicletasDisponibles > 0 ==>
              DistanciaMenor(MasCercana(s, p), p) <= DistanciaEstacion(s[j], p)
  {
    if |s| > 0 {
      MasCercanaCota(s[..|s| - 1], p);
    }
  }

  /** The station kept by the scan is strictly closer than every earlier
      station with bikes. */
  lemma {:induction false} MasCercanaPrimera(s: seq<EstacionSevici>, p: Punto)
    ensures MasCercana(s, p).Some? ==>
      exists k :: 0 <= k < |s| && s[k] == MasCercana(s, p).value
                  && forall j :: 0 <= j < k && s[j].bicicletasDisponibles > 0 ==>
                       DistanciaEstacion(s[j], p) > DistanciaEstacion(s[k], p)
  {
    if |s| > 0 {
      var n := |s| - 1;
      var previa := MasCercana(s[..n], p);
      MasCercanaPrimera(s[..n], p);
      if MasCercana(s, p) != previa {
        MasCercanaCota(s[..n], p);
        assert s[n] == MasCercana(s, p).value;
        assert forall j :: 0 <= j < n && s[j].bicicletasDisponibles > 0 ==>
                 DistanciaEstacion(s[j], p) > DistanciaEstacion(s[n], p) by {
          forall j | 0 <= j < n && s[j].bicicletasDisponibles > 0
            ensures DistanciaEstacion(s[j], p) > DistanciaEstacion(s[n], p)
          {
            assert s[..n][j] == s[j];
          }
        }
      } else if previa.Some? {
        var k :| 0 <= k < n && s[..n][k] == previa.value
                 && forall j :: 0 <= j < k && s[..n][j].bicicletasDisponibles > 0 ==>
                      DistanciaEstacion(s[..n][j], p) > DistanciaEstacion(s[..n][k], p);
        assert s[k] == MasCercana(s, p).value;
        assert forall j :: 0 <= j < k && s[j].bicicletasDisponibles > 0 ==>
                 DistanciaEstacion(s[j], p) > DistanciaEstacion(s[k], p) by {
          forall j | 0 <= j < k && s[j].bicicletasDisponibles > 0
            ensures DistanciaEstacion(s[j], p) > DistanciaEstacion(s[k], p)
          {
            assert s[..n][j] == s[j];
          }
        }
      }
    }
  }

  /** The scan meets the declarative description. */
  lemma MasCercanaCorrecta(s: seq<EstacionSevici>, p: Punto)
    ensures EsMasCercana(s, p, MasCercana(s, p))
  {
    MasCercanaCota(s, p);
    MasCercanaPrimera(s, p);
    var r := MasCercana(s, p);
    if r.Some? {
      var k :| 0 <= k < |s| && s[k] == r.value
               && forall j :: 0 <= j < k && s[j].bicicletasDisponibles > 0 ==>
                    DistanciaEstacion(s[j], p) > DistanciaEstacion(s[k], p);
      assert PrimeraMasCercana(s, p, k);
    }
  }

  /** The description admits only one answer, so it pins down the lookup. */
  lemma MasCercanaUnica(s: seq<EstacionSevici>, p: Punto, r1: Option<EstacionSevici>, r2: Option<EstacionSevici>)
    requires EsMasCercana(s, p, r1) && EsMasCercana(s, p, r2)
    ensures r1 == r2
  {
    match r1 {
      case None =>
      case Some(_) =>
        var k1 :| PrimeraMasCercana(s, p, k1) && s[k1] == r1.value;
        if r2.Some? {
          var k2 :| PrimeraMasCercana(s, p, k2) && s[k2] == r2.value;
          assert k1 == k2;
        }
    }
  }

  /** Nearest station with at least one bike, or None when there is none. */
  method BuscaEstacionMasCercana(estaciones: seq<EstacionSevici>, punto: Punto)
    returns (r: Option<EstacionSevici>)
    ensures r == MasCercana(estaciones, punto)
    ensures EsMasCercana(estaciones, punto, r)
    ensures r.None? <==> SinCandidatas(estaciones, punto)
    ensures r.Some? ==> r.value in estaciones && r.value.bicicletasDisponibles > 0
  {
    var distanciaMenor := CentinelaCuadrado;
    r := None;
    for i := 0 to |estaciones|
      invariant r == MasCercana(estaciones[..i], punto)
      invariant distanciaMenor == DistanciaMenor(r, punto)
    {
      assert estaciones[..i + 1][..i] == estaciones[..i];
      var estacion := estaciones[i];
      if estacion.bicicletasDisponibles > 0 {
        var distancia := CalculaDistanciaCuadrado((estacion.latitud, estacion.longitud), (punto.0, punto.1));
        if distancia < distanciaMenor {
          distanciaMenor := distancia;
          r := Some(estacion);
        }
      }
    }
    assert estaciones[..|estaciones|] == estaciones;
    MasCercanaCorrecta(estaciones, punto);
  }

  /** Example: a station without bikes at distance 0 from the point loses to a
      farther station that has bikes, whichever comes first in the list. */
  lemma SoloConBicicletas(a: EstacionSevici, b: EstacionSevici)
    requires a.latitud == 0.0 && a.longitud == 0.0 && a.capacidad == 10 && a.bicicletasDisponibles == 5
    requires b.latitud == 10.0 && b.longitud == 10.0 && b.capacidad == 10 && b.bicicletasDisponibles == 0
    ensures MasCercana([a, b], (0.0, 0.0)) == Some(a)
    ensures MasCercana([b, a], (10.0, 10.0)) == Some(a)
  {
    assert [a, b][..1] == [a];
    assert [b, a][..1] == [b];
  }

  // ---------------------------------------------------------------------
  // Route

  /** The nearest station with bikes to the origin and to the destination,
      looked up independently over the same list. */
  function CalculaRuta(estaciones: seq<EstacionSevici>, origen: Punto, destino: Punto)
    : (r: (Option<EstacionSevici>, Option<EstacionSevici>))
    ensures EsMasCercana(estaciones, origen, r.0)
    ensures EsMasCercana(estaciones, destino, r.1)
  {
    MasCercanaCorrecta(estaciones, origen);
    MasCercanaCorrecta(estaciones, destino);
    (MasCercana(estaciones, origen), MasCercana(estaciones, destino))
  }

  /** With no bike anywhere both ends of the route are None. */
  lemma RutaSinBicicletas(s: seq<EstacionSevici>, origen: Punto, destino: Punto)
    requires forall i :: 0 <= i < |s| ==> s[i].bicicletasDisponibles <= 0
    ensures CalculaRuta(s, origen, destino) == (None, None)
  {
  }
}
