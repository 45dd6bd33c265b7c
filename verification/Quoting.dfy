/** String literals as the platforms write them. */
module Quoting {
  import opened Text

  /** quoteStringLiteral of the base platform (src/platforms/abstract-platform.ts). */
  function QuoteStringLiteral(s: string): string { "'" + ReplaceAll(s, '\'', "''") + "'" }

  /** quoteStringLiteral of MySQL and MariaDB doubles backslashes first (src/platforms/abstract-mysql-platform.ts). */
  function QuoteMySqlLiteral(s: string): string { QuoteStringLiteral(ReplaceAll(s, '\\', "\\\\")) }
}
