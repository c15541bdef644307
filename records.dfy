/** The record shapes of the scraper: one fetched news item, its sentiment
    scores and label, and one row of the persisted News.csv. */
module Records {

  datatype Option<+T> = None | Some(value: T)

  /** One news item as fetchNewsInfo builds it: the columns Date,
      article_title, article, source_name and source_link. */
  datatype Article = Article(
    date: string,
    title: string,
    article: string,
    sourceName: string,
    sourceLink: string)

  /** The four polarity scores of one text (pos, neg, neu, compound).
      Reals are exact, so the label thresholds can be reasoned about. */
  datatype Scores = Scores(positive: real, negative: real, neutral: real, compound: real)

  /** The Sentiment column. */
  datatype Label = Positive | Negative | Neutral

  /** One row of News.csv: the article's five columns, then Positive,
      Negative, Neutral, Compound and Sentiment. */
  datatype Row = Row(news: Article, scores: Scores, sentiment: Label)
}
