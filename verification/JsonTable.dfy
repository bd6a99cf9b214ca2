/** The character classes and the transition table of src/lib/JSON_parser.c, with
    the integer codes the source gives them. */
module JsonTable {
  import opened Basics

  // ----- Character classes

  const C_SPACE := 0
  const C_WHITE := 1
  const C_LCURB := 2
  const C_RCURB := 3
  const C_LSQRB := 4
  const C_RSQRB := 5
  const C_COLON := 6
  const C_COMMA := 7
  const C_QUOTE := 8
  const C_BACKS := 9
  const C_SLASH := 10
  const C_PLUS := 11
  const C_MINUS := 12
  const C_POINT := 13
  const C_ZERO := 14
  const C_DIGIT := 15
  const C_LOW_A := 16
  const C_LOW_B := 17
  const C_LOW_C := 18
  const C_LOW_D := 19
  const C_LOW_E := 20
  const C_LOW_F := 21
  const C_LOW_L := 22
  const C_LOW_N := 23
  const C_LOW_R := 24
  const C_LOW_S := 25
  const C_LOW_T := 26
  const C_LOW_U := 27
  const C_ABCDF := 28
  const C_E := 29
  const C_ETC := 30
  const C_STAR := 31

  // ----- States

  const GO := 0
  const OK := 1
  const OB := 2
  const KE := 3
  const CO := 4
  const VA := 5
  const AR := 6
  const ST := 7
  const ES := 8
  const U1 := 9
  const U2 := 10
  const U3 := 11
  const U4 := 12
  const MI := 13
  const ZE := 14
  const IT := 15
  const FR := 16
  const E1 := 17
  const E2 := 18
  const E3 := 19
  const T1 := 20
  const T2 := 21
  const T3 := 22
  const F1 := 23
  const F2 := 24
  const F3 := 25
  const F4 := 26
  const N1 := 27
  const N2 := 28
  const N3 := 29
  const C1 := 30
  const C2 := 31
  const C3 := 32
  const FX := 33
  const D1 := 34
  const D2 := 35

  // ----- Table entries that are not states

  const BAD := -1
  const COLON := -2
  const COMMA := -3
  const END_STRING := -4
  const BEGIN_ARRAY := -5
  const BEGIN_OBJECT := -6
  const END_ARRAY := -7
  const END_OBJECT := -8
  const EMPTY_OBJECT := -9
  const CB := -10
  const CE := -11
  const FA := -12
  const TR := -13
  const NU := -14
  const DE := -15
  const DF := -16
  const SB := -17
  const MX := -18
  const ZX := -19
  const IX := -20
  const EX := -21
  const UC := -22

  /** The class of a character; BAD for a control character. */
  function ClassOf(c: int): int
    requires 0 <= c
  {
    if c >= 128 then C_ETC
    else if c < 32 then (if c == 9 || c == 10 || c == 13 then C_WHITE else BAD)
    else if c == 32 then C_SPACE else if c == 34 then C_QUOTE else if c == 42 then C_STAR
    else if c == 43 then C_PLUS else if c == 44 then C_COMMA else if c == 45 then C_MINUS
    else if c == 46 then C_POINT else if c == 47 then C_SLASH else if c == 48 then C_ZERO
    else if c == 58 then C_COLON else if c == 69 then C_E else if c == 91 then C_LSQRB
    else if c == 92 then C_BACKS else if c == 93 then C_RSQRB else if c == 97 then C_LOW_A
    else if c == 98 then C_LOW_B else if c == 99 then C_LOW_C else if c == 100 then C_LOW_D
    else if c == 101 then C_LOW_E else if c == 102 then C_LOW_F else if c == 108 then C_LOW_L
    else if c == 110 then C_LOW_N else if c == 114 then C_LOW_R else if c == 115 then C_LOW_S
    else if c == 116 then C_LOW_T else if c == 117 then C_LOW_U else if c == 123 then C_LCURB
    else if c == 125 then C_RCURB
    else if 49 <= c <= 57 then C_DIGIT else if 65 <= c <= 70 then C_ABCDF else C_ETC
  }

  predicate IsHex(k: int) { k == C_ZERO || k == C_DIGIT || C_LOW_A <= k <= C_LOW_F || k == C_ABCDF || k == C_E }

  predicate OfStructure(s: int) { GO <= s <= AR }
  predicate OfNumber(s: int) { MI <= s <= E3 || s == FX }
  predicate OfString(s: int) { ST <= s <= U4 || s == D1 || s == D2 }
  predicate OfKeyword(s: int) { T1 <= s <= N3 }
  predicate OfComment(s: int) { C1 <= s <= C3 }

  function StructureRow(s: int, k: int): int {
    if s == GO then (if k == C_SPACE || k == C_WHITE then GO else if k == C_LCURB then BEGIN_OBJECT else if k ==
      C_LSQRB then BEGIN_ARRAY else if k == C_SLASH then CB else BAD)
    else if s == OK then (if k == C_SPACE || k == C_WHITE then OK else if k == C_RCURB then END_OBJECT else if k
      == C_RSQRB then END_ARRAY else if k == C_COMMA then COMMA else if k == C_SLASH then CB else BAD)
    else if s == OB then (if k == C_SPACE || k == C_WHITE then OB else if k == C_RCURB then EMPTY_OBJECT else if
      k == C_QUOTE then SB else if k == C_SLASH then CB else BAD)
    else if s == KE then (if k == C_SPACE || k == C_WHITE then KE else if k == C_QUOTE then SB else if k ==
      C_SLASH then CB else BAD)
    else if s == CO then (if k == C_SPACE || k == C_WHITE then CO else if k == C_COLON then COLON else if k ==
      C_SLASH then CB else BAD)
    else if s == VA then (if k == C_SPACE || k == C_WHITE then VA else if k == C_LCURB then BEGIN_OBJECT else if
      k == C_LSQRB then BEGIN_ARRAY else if k == C_QUOTE then SB else if k == C_SLASH then CB else if k ==
      C_MINUS then MX else if k == C_ZERO then ZX else if k == C_DIGIT then IX else if k == C_LOW_F then FA else
      if k == C_LOW_N then NU else if k == C_LOW_T then TR else BAD)
    else if k == C_SPACE || k == C_WHITE then AR else if k == C_LCURB then BEGIN_OBJECT else if k == C_LSQRB
      then BEGIN_ARRAY else if k == C_RSQRB then END_ARRAY else if k == C_QUOTE then SB else if k == C_SLASH
      then CB else if k == C_MINUS then MX else if k == C_ZERO then ZX else if k == C_DIGIT then IX else if k ==
      C_LOW_F then FA else if k == C_LOW_N then NU else if k == C_LOW_T then TR else BAD
  }

  function NumberRow(s: int, k: int): int {
    if s == MI then (if k == C_ZERO then ZE else if k == C_DIGIT then IT else BAD)
    else if s == ZE then (if k == C_SPACE || k == C_WHITE then OK else if k == C_RCURB then END_OBJECT else if k
      == C_RSQRB then END_ARRAY else if k == C_COMMA then COMMA else if k == C_SLASH then CB else if k ==
      C_POINT then DF else BAD)
    else if s == IT then (if k == C_SPACE || k == C_WHITE then OK else if k == C_RCURB then END_OBJECT else if k
      == C_RSQRB then END_ARRAY else if k == C_COMMA then COMMA else if k == C_SLASH then CB else if k ==
      C_POINT then DF else if k == C_ZERO || k == C_DIGIT then IT else if k == C_LOW_E || k == C_E then DE else
      BAD)
    else if s == FR then (if k == C_SPACE || k == C_WHITE then OK else if k == C_RCURB then END_OBJECT else if k
      == C_RSQRB then END_ARRAY else if k == C_COMMA then COMMA else if k == C_SLASH then CB else if k == C_ZERO
      || k == C_DIGIT then FR else if k == C_LOW_E || k == C_E then E1 else BAD)
    else if s == E1 then (if k == C_PLUS || k == C_MINUS then E2 else if k == C_ZERO || k == C_DIGIT then E3
      else BAD)
    else if s == E2 then (if k == C_ZERO || k == C_DIGIT then E3 else BAD)
    else if s == E3 then (if k == C_SPACE || k == C_WHITE then OK else if k == C_RCURB then END_OBJECT else if k
      == C_RSQRB then END_ARRAY else if k == C_COMMA then COMMA else if k == C_ZERO || k == C_DIGIT then E3 else
      BAD)
    else if k == C_SPACE || k == C_WHITE then OK else if k == C_RCURB then END_OBJECT else if k == C_RSQRB then
      END_ARRAY else if k == C_COMMA then COMMA else if k == C_ZERO || k == C_DIGIT then FR else if k == C_LOW_E
      || k == C_E then E1 else BAD
  }

  function StringRow(s: int, k: int): int {
    if s == ST then (if k == C_WHITE then BAD else if k == C_QUOTE then END_STRING else if k == C_BACKS then EX
      else ST)
    else if s == ES then (if k == C_QUOTE || k == C_BACKS || k == C_SLASH || k == C_LOW_B || k == C_LOW_F || k
      == C_LOW_N || k == C_LOW_R || k == C_LOW_T then ST else if k == C_LOW_U then U1 else BAD)
    else if s == U1 then (if IsHex(k) then U2 else BAD)
    else if s == U2 then (if IsHex(k) then U3 else BAD)
    else if s == U3 then (if IsHex(k) then U4 else BAD)
    else if s == U4 then (if IsHex(k) then UC else BAD)
    else if s == D1 then (if k == C_BACKS then D2 else BAD)
    else if k == C_LOW_U then U1 else BAD
  }

  function KeywordRow(s: int, k: int): int {
    if s == T1 then (if k == C_LOW_R then T2 else BAD)
    else if s == T2 then (if k == C_LOW_U then T3 else BAD)
    else if s == T3 then (if k == C_SLASH then CB else if k == C_LOW_E then OK else BAD)
    else if s == F1 then (if k == C_LOW_A then F2 else BAD)
    else if s == F2 then (if k == C_LOW_L then F3 else BAD)
    else if s == F3 then (if k == C_LOW_S then F4 else BAD)
    else if s == F4 then (if k == C_SLASH then CB else if k == C_LOW_E then OK else BAD)
    else if s == N1 then (if k == C_LOW_U then N2 else BAD)
    else if s == N2 then (if k == C_LOW_L then N3 else BAD)
    else if k == C_SLASH then CB else if k == C_LOW_L then OK else BAD
  }

  function CommentRow(s: int, k: int): int {
    if s == C1 then (if k == C_STAR then C2 else BAD)
    else if s == C2 then (if k == C_STAR then C3 else C2)
    else if k == C_SLASH then CE else if k == C_STAR then C3 else C2
  }

  /** The transition table, row by row: the next state, or a negative action. */
  function Table(s: int, k: int): int {
    if OfStructure(s) then StructureRow(s, k)
    else if OfNumber(s) then NumberRow(s, k)
    else if OfString(s) then StringRow(s, k)
    else if OfKeyword(s) then KeywordRow(s, k)
    else CommentRow(s, k)
  }
}
