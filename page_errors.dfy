/**
 * The exceptions constructing `getUrlData` can raise once the page tables are
 * in hand, in the order the code can meet them.
 */
module PageErrors {
  datatype PageError =
    | TooFewPageTokens    // IndexError: the page name has fewer than five '-' tokens
    | HeaderTooShort      // ValueError: a header row has fewer than the four cells to relabel
    | NoEmploymentTables  // ValueError from pd.concat: "No objects to concatenate"
    | ColumnLabelsClash   // InvalidIndexError from pd.concat: labels differ between frames and one frame repeats a label
    | UnknownMonthName    // KeyError from MONTH_DICT_REV
    | DateColumnRepeated  // ValueError: pd.to_datetime given the two or more columns labelled "date"
    | UnparsableDate      // pd.to_datetime cannot read the assembled date
}
