/** The character classes of the parser in the terms of the standards. */
module CharClasses {
  import opened HttpParser
  import opened UrlAuthority

  predicate IsLetter(c: octet) {
    'A' <= c <= 'Z' || 'a' <= c <= 'z'
  }

  predicate IsDigit(c: octet) {
    '0' <= c <= '9'
  }

  /** Section 2.3 of RFC 3986. */
  predicate IsUnreserved(c: octet) {
    IsLetter(c) || IsDigit(c) || c in {'-', '.', '_', '~'}
  }

  predicate IsSubDelim(c: octet) {
    c in {'!', '$', '&', '\'', '(', ')', '*', '+', ',', ';', '='}
  }

  /** A token character is one of section 3.2.6 of RFC 7230; a header value holds what its section 3.2 allows, and line
      ends. In a URL, user information holds what section 3.2.1 of RFC 3986 allows, a host name letters, digits, hyphens
      and dots, an address hexadecimal digits, colons and dots, its zone what section 2 of RFC 6874 allows, and a path
      what section 3.3 of RFC 3986 allows, `/`, `%`, and further characters that the standard leaves out. */
  lemma {:induction false} ClassesAre(c: octet)
    ensures
      IsToken(c) <==>
      || IsLetter(c) || IsDigit(c)
      || c in {'!', '#', '$', '%', '&', '\'', '*', '+', '-', '.', '^', '_', '`', '|', '~'}
    ensures IsHeaderChar(c) <==> c in {' ', '\t', '\r', '\n'} || '!' <= c <= '~' || c as int >= 0x80
    ensures IsUserinfoChar(c) <==> IsUnreserved(c) || IsSubDelim(c) || c == '%' || c == ':'
    ensures IsHostChar(c) <==> IsLetter(c) || IsDigit(c) || c == '-' || c == '.'
    ensures
      IsUrlChar(c) <==>
      || IsUnreserved(c) || IsSubDelim(c) || c in {':', '@', '/', '%'}
      || c in {'"', '<', '>', '[', '\\', ']', '^', '`', '{', '|', '}'}
    ensures IsZoneChar(c) <==> IsUnreserved(c) || c == '%'
    ensures IsV6Char(c) <==> IsDigit(c) || 'A' <= c <= 'F' || 'a' <= c <= 'f' || c == ':' || c == '.'
    ensures IsAlpha(c) <==> IsLetter(c)
    ensures IsNum(c) <==> IsDigit(c)
    ensures IsHex(c) <==> IsDigit(c) || 'A' <= c <= 'F' || 'a' <= c <= 'f'
    ensures IsLetter(c) ==> IsLetter(Lower(c)) && 'a' <= Lower(c) <= 'z' && (Lower(c) as int - c as int) % 32 == 0
  {
  }
}
