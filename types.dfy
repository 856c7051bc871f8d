/**
  The records of types.ts. Optional (`?:`) fields are `Option`s; the TypeScript field
  `type` is called `kind` here because `type` is a Dafny keyword.
*/
module Types {
  import opened Wrappers

  /** The eight creative roles and their display strings. */
  datatype ImageType =
    | MainImage | Lifestyle1 | Lifestyle2 | Infographic1 | Infographic2 | Infographic3
    | ComparisonImage | BrandStory

  function ImageTypeLabel(t: ImageType): string {
    match t
    case MainImage => "Main Image"
    case Lifestyle1 => "Lifestyle 1"
    case Lifestyle2 => "Lifestyle 2"
    case Infographic1 => "Infographic 1"
    case Infographic2 => "Infographic 2"
    case Infographic3 => "Infographic 3"
    case ComparisonImage => "Comparison Image"
    case BrandStory => "Brand Story"
  }

  /** `uri` is `None` when the web chunk it was copied from had none (`undefined`). */
  datatype GroundingSource = GroundingSource(title: string, uri: Option<string>)

  datatype ProductAnalysis = ProductAnalysis(
    category: string,
    useCase: string,
    targetCustomer: string,
    keyBenefits: seq<string>,
    materials: string,
    dimensions: string,
    colorPalette: seq<string>,
    brandTone: string,
    competitorInsights: string,
    suggestedAesthetics: string,
    visualDescription: string,
    groundingSources: Option<seq<GroundingSource>>,
    extractedImageUrls: Option<seq<string>>)

  /**
    One brief/asset slot. `kind` stays a string: briefs come straight from decoded model
    output, so nothing guarantees it is one of the `ImageType` labels.
  */
  datatype ListingImage = ListingImage(
    id: string,
    kind: string,
    title: string,
    headline: string,
    subCopy: string,
    visualPrompt: string,
    creativeBrief: string,
    generatedImageUrl: Option<string>,
    versions: seq<string>,
    isLoading: Option<bool>)

  /** How a project was requested; `Smart` is emitted by the input form (text plus photo). */
  datatype InputKind = Url | Asin | Image | Smart

  datatype HistoryItem = HistoryItem(
    id: string,
    timestamp: int,
    input: string,
    kind: InputKind,
    analysis: ProductAnalysis,
    referenceImage: Option<string>,
    images: seq<ListingImage>)
}
