/** One entry of the companies directory, as loaded from the data file. */
module Companies {

  datatype Company = Company(id: int, name: string, location: string, industry: string)
}
